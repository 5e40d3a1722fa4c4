/**
 * The home-page tree: categories with their cards, each card formatted by its type handler
 * and given a tooltip, children and categories ordered by sort, empty categories dropped.
 */
module CardTree {
  import opened Wrappers
  import opened ServiceErrors
  import opened JavaText
  import opened Sorting
  import opened CardTypes
  import opened Cards

  // ----- the tooltip -----

  /** Stream.filter(StringUtils::isNotBlank) over nullable strings. */
  function NonBlank(values: seq<Option<string>>): (r: seq<string>)
    ensures forall k :: 0 <= k < |r| ==> !IsBlank(Some(r[k]))
    ensures forall x :: x in r <==> Some(x) in values && !IsBlank(Some(x))
  {
    if values == [] then []
    else
      var rest := NonBlank(values[1..]);
      assert forall x :: Some(x) in values <==> Some(x) == values[0] || Some(x) in values[1..];
      if IsBlank(values[0]) then rest else [values[0].value] + rest
  }

  /** The filter keeps encounter order: filtering a concatenation concatenates the filtered parts. */
  lemma {:induction false} NonBlankAppend(a: seq<Option<string>>, b: seq<Option<string>>)
    ensures NonBlank(a + b) == NonBlank(a) + NonBlank(b)
  {
    if a != [] {
      assert (a + b)[1..] == a[1..] + b;
      NonBlankAppend(a[1..], b);
    } else {
      assert a + b == b;
    }
  }

  /** The filter keeps every non-blank value as often as it occurs, and no blank one. */
  lemma {:induction false} NonBlankCount(values: seq<Option<string>>, x: string)
    ensures multiset(NonBlank(values))[x] == if IsBlank(Some(x)) then 0 else multiset(values)[Some(x)]
  {
    if values != [] {
      NonBlankCount(values[1..], x);
      assert values == [values[0]] + values[1..];
      var head := if IsBlank(values[0]) then [] else [values[0].value];
      assert NonBlank(values) == head + NonBlank(values[1..]);
      assert multiset(NonBlank(values)) == multiset(head) + multiset(NonBlank(values[1..]));
    }
  }

  /** Stream.distinct: keeps the first occurrence of each value, in encounter order. */
  function Distinct(s: seq<string>): (r: seq<string>)
    ensures forall x :: x in r <==> x in s
    ensures forall i, j :: 0 <= i < j < |r| ==> r[i] != r[j]
  {
    if s == [] then []
    else
      var d := Distinct(s[..|s| - 1]);
      assert s == s[..|s| - 1] + [s[|s| - 1]];
      if s[|s| - 1] in d then d else d + [s[|s| - 1]]
  }

  /** The position of the first occurrence of x in s. */
  function FirstIndex(s: seq<string>, x: string): (i: nat)
    requires x in s
    ensures i < |s| && s[i] == x && x !in s[..i]
  {
    if s[0] == x then 0 else 1 + FirstIndex(s[1..], x)
  }

  /** Distinct lists the values in the order of their first occurrences. */
  lemma {:induction false} DistinctKeepsFirstOccurrenceOrder(s: seq<string>)
    ensures forall i, j :: 0 <= i < j < |Distinct(s)| ==> FirstIndex(s, Distinct(s)[i]) < FirstIndex(s, Distinct(s)[j])
  {
    if s != [] {
      var n := |s| - 1;
      var prefix := s[..n];
      DistinctKeepsFirstOccurrenceOrder(prefix);
      var d := Distinct(prefix);
      forall x | x in prefix ensures FirstIndex(s, x) == FirstIndex(prefix, x) {
        FirstIndexOfPrefix(s, n, x);
      }
      if s[n] !in d {
        assert s[n] !in prefix;
        FirstIndexLast(s);
      }
    }
  }

  lemma {:induction false} FirstIndexOfPrefix(s: seq<string>, n: nat, x: string)
    requires n <= |s| && x in s[..n]
    ensures FirstIndex(s, x) == FirstIndex(s[..n], x)
  {
    if s[0] != x {
      assert s[1..][..n - 1] == s[..n][1..];
      FirstIndexOfPrefix(s[1..], n - 1, x);
    }
  }

  lemma {:induction false} FirstIndexLast(s: seq<string>)
    requires s != [] && s[|s| - 1] !in s[..|s| - 1]
    ensures FirstIndex(s, s[|s| - 1]) == |s| - 1
  {
  }

  /** The tooltip lines: the non-blank values among title, content and url, duplicates removed. */
  function TipSegments(vo: CardTreeChildVo): seq<string> {
    Distinct(NonBlank([vo.title, vo.content, vo.url]))
  }

  /** The tooltip is its lines joined by a line feed. */
  function WithTip(vo: CardTreeChildVo): CardTreeChildVo {
    vo.(tip := Some(Join(TipSegments(vo), "\n")))
  }

  /**
   * The non-blank values of a list, duplicates removed: none blank, none repeated, exactly
   * the non-blank values, in the order of their first occurrences; empty exactly when all are blank.
   */
  lemma SegmentsSpec(values: seq<Option<string>>)
    ensures var segs := Distinct(NonBlank(values));
      && (forall k :: 0 <= k < |segs| ==> !IsBlank(Some(segs[k])))
      && (forall i, j :: 0 <= i < j < |segs| ==> segs[i] != segs[j])
      && (forall x :: x in segs <==> (Some(x) in values && !IsBlank(Some(x))))
      && (forall i, j :: 0 <= i < j < |segs| ==> FirstIndex(NonBlank(values), segs[i]) < FirstIndex(NonBlank(values), segs[j]))
      && (segs == [] <==> forall k :: 0 <= k < |values| ==> IsBlank(values[k]))
  {
    var segs := Distinct(NonBlank(values));
    DistinctKeepsFirstOccurrenceOrder(NonBlank(values));
    forall k | 0 <= k < |segs| ensures !IsBlank(Some(segs[k])) {
      assert segs[k] in NonBlank(values);
    }
    if segs != [] {
      assert segs[0] in NonBlank(values);
    } else {
      forall k | 0 <= k < |values| ensures IsBlank(values[k]) {
        assert values[k] in values;
      }
    }
  }

  /**
   * The tooltip holds no blank line and no line twice; its lines are exactly the non-blank
   * values among title, content and url, in that order; it is empty exactly when all three are blank.
   */
  lemma TipSpec(vo: CardTreeChildVo)
    ensures var segs := TipSegments(vo);
      && (forall k :: 0 <= k < |segs| ==> !IsBlank(Some(segs[k])))
      && (forall i, j :: 0 <= i < j < |segs| ==> segs[i] != segs[j])
      && (forall x :: x in segs <==> (Some(x) in [vo.title, vo.content, vo.url] && !IsBlank(Some(x))))
      && (forall i, j :: 0 <= i < j < |segs| ==>
            FirstIndex(NonBlank([vo.title, vo.content, vo.url]), segs[i]) < FirstIndex(NonBlank([vo.title, vo.content, vo.url]), segs[j]))
    ensures WithTip(vo).tip == Some("") <==> IsBlank(vo.title) && IsBlank(vo.content) && IsBlank(vo.url)
  {
    var values := [vo.title, vo.content, vo.url];
    var segs := TipSegments(vo);
    SegmentsSpec(values);
    forall k | 0 <= k < |segs| ensures segs[k] != [] {
      assert !IsBlank(Some(segs[k]));
    }
    JoinEmpty(segs, "\n");
    assert segs == [] <==> IsBlank(values[0]) && IsBlank(values[1]) && IsBlank(values[2]);
  }

  // ----- formatting and ordering -----

  /** The handler resolution, formatCardVo hook and tooltip applied to one card. */
  function FormatCard(registry: map<CardType, Handler>, getEnum: string -> Option<CardType>,
                      format: (Handler, CardTreeChildVo) -> CardTreeChildVo, card: Card): Result<CardTreeChildVo, ServiceError>
  {
    match Resolve(registry, getEnum(card.cardType), card.cardType)
    case Failure(e) => Failure(e)
    case Success(h) => Success(WithTip(format(h, ChildVoOf(card))))
  }

  /** FormatCard for one registry, type parser and formatCardVo hook, as a function of the card. */
  function Formatter(registry: map<CardType, Handler>, getEnum: string -> Option<CardType>,
                     format: (Handler, CardTreeChildVo) -> CardTreeChildVo): Card -> Result<CardTreeChildVo, ServiceError>
  {
    card => FormatCard(registry, getEnum, format, card)
  }

  /** Formats every card in order; the first card whose type does not resolve aborts with its error. */
  function FormatAll(fmt: Card -> Result<CardTreeChildVo, ServiceError>, cards: seq<Card>): (r: Result<seq<CardTreeChildVo>, ServiceError>)
    ensures r.Success? <==> forall i :: 0 <= i < |cards| ==> fmt(cards[i]).Success?
    ensures r.Success? ==> |r.value| == |cards|
    ensures r.Success? ==> forall i :: 0 <= i < |cards| ==> fmt(cards[i]) == Success(r.value[i])
    ensures r.Failure? ==> exists i :: 0 <= i < |cards| && fmt(cards[i]) == Failure(r.error)
                             && forall j :: 0 <= j < i ==> fmt(cards[j]).Success?
  {
    if cards == [] then Success([])
    else
      assert forall j :: 1 <= j < |cards| ==> cards[1..][j - 1] == cards[j];
      match fmt(cards[0])
      case Failure(e) => Failure(e)
      case Success(vo) =>
        match FormatAll(fmt, cards[1..])
        case Failure(e) =>
          ghost var i :| 0 <= i < |cards[1..]| && fmt(cards[1..][i]) == Failure(e)
                         && forall j :: 0 <= j < i ==> fmt(cards[1..][j]).Success?;
          assert 0 <= i + 1 < |cards| && fmt(cards[i + 1]) == Failure(e)
                 && forall j :: 0 <= j < i + 1 ==> fmt(cards[j]).Success?;
          Failure(e)
        case Success(rest) =>
          assert forall j :: 1 <= j < |cards| ==> ([vo] + rest)[j] == rest[j - 1];
          Success([vo] + rest)
  }

  /** The formatted prefix in front of the rest of a formatting run. */
  function Prepended(prefix: seq<CardTreeChildVo>, rest: Result<seq<CardTreeChildVo>, ServiceError>): Result<seq<CardTreeChildVo>, ServiceError> {
    match rest
    case Failure(e) => Failure(e)
    case Success(vos) => Success(prefix + vos)
  }

  /** Associativity of Prepended, stated apart so that FormatAll's proof needs no sequence reasoning. */
  lemma PrependedTwice(a: seq<CardTreeChildVo>, b: seq<CardTreeChildVo>, rest: Result<seq<CardTreeChildVo>, ServiceError>)
    ensures Prepended(a, Prepended(b, rest)) == Prepended(a + b, rest)
  {
    if rest.Success? {
      assert a + (b + rest.value) == (a + b) + rest.value;
    }
  }

  /** Formatting from position i on: the card at i, then the rest. */
  lemma FormatAllStep(fmt: Card -> Result<CardTreeChildVo, ServiceError>, cards: seq<Card>, i: int)
    requires 0 <= i < |cards|
    ensures FormatAll(fmt, cards[i..]) ==
      match fmt(cards[i])
      case Failure(e) => Failure(e)
      case Success(vo) => Prepended([vo], FormatAll(fmt, cards[i + 1..]))
  {
    assert cards[i..][1..] == cards[i + 1..];
  }

  function ChildRank(vo: CardTreeChildVo): int {
    SortKey(vo.sort)
  }

  function NodeRank(node: CardTreeVo): int {
    SortKey(node.sort)
  }

  /**
   * List.sort(Comparator.comparing(CardTreeChildVo::getSort)): with two or more elements every
   * element is compared, so a null sort raises; otherwise the stable order by sort.
   */
  function SortChildren(vos: seq<CardTreeChildVo>): (r: Result<seq<CardTreeChildVo>, ServiceError>)
    ensures r.Failure? <==> |vos| >= 2 && exists i :: 0 <= i < |vos| && vos[i].sort.None?
    ensures r.Failure? ==> r.error == NullSortKey
    ensures r.Success? ==> multiset(r.value) == multiset(vos) && SortedBy(r.value, ChildRank)
  {
    if |vos| >= 2 && exists i :: 0 <= i < |vos| && vos[i].sort.None? then Failure(NullSortKey)
    else Success(SortByKey(vos, ChildRank))
  }

  /** Stream.sorted(Comparator.comparing(CardTreeVo::getSort)) with the same null behaviour. */
  function SortNodes(nodes: seq<CardTreeVo>): (r: Result<seq<CardTreeVo>, ServiceError>)
    ensures r.Failure? <==> |nodes| >= 2 && exists i :: 0 <= i < |nodes| && nodes[i].sort.None?
    ensures r.Failure? ==> r.error == NullSortKey
    ensures r.Success? ==> multiset(r.value) == multiset(nodes) && SortedBy(r.value, NodeRank)
  {
    if |nodes| >= 2 && exists i :: 0 <= i < |nodes| && nodes[i].sort.None? then Failure(NullSortKey)
    else Success(SortByKey(nodes, NodeRank))
  }

  /** setCardChildren: an empty list yields no children; otherwise format every card, then sort. */
  function CardChildren(fmt: Card -> Result<CardTreeChildVo, ServiceError>, cardList: seq<Card>): (r: Result<seq<CardTreeChildVo>, ServiceError>)
    ensures cardList == [] ==> r == Success([])
    ensures r.Success? ==> |r.value| == |cardList| && SortedBy(r.value, ChildRank)
    ensures r.Success? ==> FormatAll(fmt, cardList).Success?
                           && multiset(r.value) == multiset(FormatAll(fmt, cardList).value)
    ensures r.Failure? <==>
      || (exists i :: 0 <= i < |cardList| && fmt(cardList[i]).Failure?)
      || (|cardList| >= 2 && exists i :: 0 <= i < |cardList| && fmt(cardList[i]).Success? && fmt(cardList[i]).value.sort.None?)
    ensures FormatAll(fmt, cardList).Failure? ==> r == Failure(FormatAll(fmt, cardList).error)
    ensures r.Failure? && FormatAll(fmt, cardList).Success? ==> r.error == NullSortKey
    ensures r.Failure? ==> r.error == NullSortKey || exists i :: 0 <= i < |cardList| && fmt(cardList[i]) == Failure(r.error)
  {
    if cardList == [] then Success([])
    else
      match FormatAll(fmt, cardList)
      case Failure(e) => Failure(e)
      case Success(vos) =>
        assert forall i :: 0 <= i < |cardList| ==> fmt(cardList[i]) == Success(vos[i]);
        SortChildren(vos)
  }

  /** Once every card of a non-empty list is formatted, the children are those values sorted. */
  lemma CardChildrenFormatted(fmt: Card -> Result<CardTreeChildVo, ServiceError>, cardList: seq<Card>, vos: seq<CardTreeChildVo>)
    requires cardList != [] && FormatAll(fmt, cardList) == Success(vos)
    ensures CardChildren(fmt, cardList) == SortChildren(vos)
  {
  }

  /** The children are exactly the formatted cards. */
  lemma CardChildrenMembers(fmt: Card -> Result<CardTreeChildVo, ServiceError>, cardList: seq<Card>)
    requires CardChildren(fmt, cardList).Success?
    ensures var children := CardChildren(fmt, cardList).value;
      forall c :: c in children <==> exists i :: 0 <= i < |cardList| && fmt(cardList[i]) == Success(c)
  {
    var children := CardChildren(fmt, cardList).value;
    FormattedMembers(fmt, cardList);
    var vos := FormatAll(fmt, cardList).value;
    forall c ensures c in children <==> c in vos {
      assert c in children <==> c in multiset(children);
      assert c in vos <==> c in multiset(vos);
    }
  }

  /** The formatted list holds exactly the formatted cards. */
  lemma FormattedMembers(fmt: Card -> Result<CardTreeChildVo, ServiceError>, cards: seq<Card>)
    requires FormatAll(fmt, cards).Success?
    ensures var vos := FormatAll(fmt, cards).value;
      forall c :: c in vos <==> exists i :: 0 <= i < |cards| && fmt(cards[i]) == Success(c)
  {
    var vos := FormatAll(fmt, cards).value;
    forall c | c in vos
      ensures exists i :: 0 <= i < |cards| && fmt(cards[i]) == Success(c)
    {
      var i :| 0 <= i < |vos| && vos[i] == c;
      assert fmt(cards[i]) == Success(c);
    }
  }

  // ----- grouping and the tree -----

  /** The list groupingBy(Card::getCategory) puts under id: the cards of that category, in order. */
  function GroupOf(cards: seq<Card>, id: string): (g: seq<Card>)
    ensures forall k :: 0 <= k < |g| ==> g[k].category == id
  {
    if cards == [] then []
    else
      var rest := GroupOf(cards[1..], id);
      if cards[0].category == id then [cards[0]] + rest else rest
  }

  /** groupingBy keeps encounter order: grouping a concatenation concatenates the groups. */
  lemma {:induction false} GroupOfAppend(a: seq<Card>, b: seq<Card>, id: string)
    ensures GroupOf(a + b, id) == GroupOf(a, id) + GroupOf(b, id)
  {
    if a != [] {
      var ab := a + b;
      assert ab[0] == a[0] && ab[1..] == a[1..] + b;
      GroupOfAppend(a[1..], b, id);
      var head := if a[0].category == id then [a[0]] else [];
      assert GroupOf(ab, id) == head + GroupOf(ab[1..], id);
      assert GroupOf(a, id) == head + GroupOf(a[1..], id);
      assert head + (GroupOf(a[1..], id) + GroupOf(b, id)) == (head + GroupOf(a[1..], id)) + GroupOf(b, id);
    } else {
      assert a + b == b;
    }
  }

  /** A group holds every card of its category as often as the card list does, and no other card. */
  lemma {:induction false} GroupOfCount(cards: seq<Card>, id: string, c: Card)
    ensures multiset(GroupOf(cards, id))[c] == if c.category == id then multiset(cards)[c] else 0
  {
    if cards != [] {
      GroupOfCount(cards[1..], id, c);
      assert cards == [cards[0]] + cards[1..];
    }
  }

  /** A category's group holds exactly the cards of that category. */
  lemma GroupOfMembers(cards: seq<Card>, id: string)
    ensures forall c :: c in GroupOf(cards, id) <==> c in cards && c.category == id
  {
    forall c ensures c in GroupOf(cards, id) <==> c in cards && c.category == id {
      GroupOfCount(cards, id, c);
      assert c in GroupOf(cards, id) <==> c in multiset(GroupOf(cards, id));
    }
  }

  /** BeanExtUtils.convert(category, CardTreeVo::new).setChildren(children). */
  function NodeOf(category: Category, children: seq<CardTreeChildVo>): CardTreeVo {
    CardTreeVo(category.id, category.name, category.sort, children)
  }

  /** The children of a category's group, as a function of the category id. */
  function GroupChildren(fmt: Card -> Result<CardTreeChildVo, ServiceError>, cards: seq<Card>)
    : string -> Result<seq<CardTreeChildVo>, ServiceError>
  {
    id => CardChildren(fmt, GroupOf(cards, id))
  }

  /** Maps every category, in order, to its node; the first category whose children fail aborts. */
  function BuildNodes(childrenOf: string -> Result<seq<CardTreeChildVo>, ServiceError>,
                      categories: seq<Category>): (r: Result<seq<CardTreeVo>, ServiceError>)
    ensures r.Success? <==> forall k :: 0 <= k < |categories| ==> childrenOf(categories[k].id).Success?
    ensures r.Success? ==> |r.value| == |categories|
    ensures r.Success? ==> forall k :: 0 <= k < |categories| ==>
      childrenOf(categories[k].id) == Success(r.value[k].children) && r.value[k] == NodeOf(categories[k], r.value[k].children)
    ensures r.Failure? ==> exists k :: 0 <= k < |categories| && childrenOf(categories[k].id) == Failure(r.error)
                             && forall j :: 0 <= j < k ==> childrenOf(categories[j].id).Success?
  {
    if categories == [] then Success([])
    else
      assert forall k :: 1 <= k < |categories| ==> categories[1..][k - 1] == categories[k];
      match childrenOf(categories[0].id)
      case Failure(e) => Failure(e)
      case Success(children) =>
        match BuildNodes(childrenOf, categories[1..])
        case Failure(e) =>
          ghost var k :| 0 <= k < |categories[1..]| && childrenOf(categories[1..][k].id) == Failure(e)
                         && forall j :: 0 <= j < k ==> childrenOf(categories[1..][j].id).Success?;
          assert 0 <= k + 1 < |categories| && childrenOf(categories[k + 1].id) == Failure(e)
                 && forall j :: 0 <= j < k + 1 ==> childrenOf(categories[j].id).Success?;
          Failure(e)
        case Success(rest) =>
          var nodes := [NodeOf(categories[0], children)] + rest;
          assert forall k :: 1 <= k < |categories| ==> nodes[k] == rest[k - 1];
          Success(nodes)
  }

  /** Stream.filter(item -> isNotEmpty(item.getChildren())). */
  function NonEmptyNodes(nodes: seq<CardTreeVo>): (r: seq<CardTreeVo>)
    ensures forall n :: n in r <==> n in nodes && n.children != []
  {
    if nodes == [] then []
    else
      var rest := NonEmptyNodes(nodes[1..]);
      assert forall n :: n in nodes <==> n == nodes[0] || n in nodes[1..];
      if nodes[0].children != [] then [nodes[0]] + rest else rest
  }

  /** The filter keeps encounter order: filtering a concatenation concatenates the filtered parts. */
  lemma {:induction false} NonEmptyNodesAppend(a: seq<CardTreeVo>, b: seq<CardTreeVo>)
    ensures NonEmptyNodes(a + b) == NonEmptyNodes(a) + NonEmptyNodes(b)
  {
    if a != [] {
      assert (a + b)[1..] == a[1..] + b;
      NonEmptyNodesAppend(a[1..], b);
    } else {
      assert a + b == b;
    }
  }

  /** The filter keeps every node with children as often as it occurs, and no node without. */
  lemma {:induction false} NonEmptyNodesCount(nodes: seq<CardTreeVo>, n: CardTreeVo)
    ensures multiset(NonEmptyNodes(nodes))[n] == if n.children != [] then multiset(nodes)[n] else 0
  {
    if nodes != [] {
      NonEmptyNodesCount(nodes[1..], n);
      assert nodes == [nodes[0]] + nodes[1..];
    }
  }

  /** The cards the tree shows: all of them for blank keywords, else the keyword query on the lower-cased keywords. */
  function TreeCards(keywords: Option<string>, findAll: seq<Card>, findByKeywords: string -> seq<Card>): seq<Card> {
    if IsBlank(keywords) then findAll else findByKeywords(ToLower(keywords.value))
  }

  /** CardService.tree. */
  function Tree(registry: map<CardType, Handler>, getEnum: string -> Option<CardType>,
                format: (Handler, CardTreeChildVo) -> CardTreeChildVo,
                categories: seq<Category>, keywords: Option<string>,
                findAll: seq<Card>, findByKeywords: string -> seq<Card>): Result<seq<CardTreeVo>, ServiceError>
  {
    if categories == [] then Success([])
    else
      var cards := TreeCards(keywords, findAll, findByKeywords);
      if cards == [] then Success([])
      else
        match BuildNodes(GroupChildren(Formatter(registry, getEnum, format), cards), categories)
        case Failure(e) => Failure(e)
        case Success(nodes) => SortNodes(NonEmptyNodes(nodes))
  }

  /**
   * tree's shape: nothing when there are no categories or no cards; otherwise categories in
   * sort order, each with children in sort order, none empty, every child formatted from a
   * card of exactly that category, so cards of unlisted categories appear nowhere.
   */
  lemma TreeShape(registry: map<CardType, Handler>, getEnum: string -> Option<CardType>,
                  format: (Handler, CardTreeChildVo) -> CardTreeChildVo,
                  categories: seq<Category>, keywords: Option<string>,
                  findAll: seq<Card>, findByKeywords: string -> seq<Card>)
    ensures var cards := TreeCards(keywords, findAll, findByKeywords);
      (categories == [] || cards == []) ==> Tree(registry, getEnum, format, categories, keywords, findAll, findByKeywords) == Success([])
    ensures var cards := TreeCards(keywords, findAll, findByKeywords);
      var r := Tree(registry, getEnum, format, categories, keywords, findAll, findByKeywords);
      r.Success? ==>
        && SortedBy(r.value, NodeRank)
        && forall n :: n in r.value ==>
          && n.children != []
          && SortedBy(n.children, ChildRank)
          && (exists k :: 0 <= k < |categories| && n == NodeOf(categories[k], n.children))
          && forall c :: c in n.children ==>
               exists card :: card in cards && card.category == n.id && FormatCard(registry, getEnum, format, card) == Success(c)
  {
    var cards := TreeCards(keywords, findAll, findByKeywords);
    var r := Tree(registry, getEnum, format, categories, keywords, findAll, findByKeywords);
    if categories != [] && cards != [] && r.Success? {
      var fmt := Formatter(registry, getEnum, format);
      var nodes := BuildNodes(GroupChildren(fmt, cards), categories).value;
      forall n | n in r.value
        ensures n.children != [] && SortedBy(n.children, ChildRank)
        ensures exists k :: 0 <= k < |categories| && n == NodeOf(categories[k], n.children)
        ensures forall c :: c in n.children ==>
          exists card :: card in cards && card.category == n.id && FormatCard(registry, getEnum, format, card) == Success(c)
      {
        assert n in multiset(r.value);
        assert n in NonEmptyNodes(nodes);
        var k :| 0 <= k < |nodes| && nodes[k] == n;
        NodeChildren(fmt, cards, categories, k);
        forall c | c in n.children
          ensures exists card :: card in cards && card.category == n.id && FormatCard(registry, getEnum, format, card) == Success(c)
        {
          var card :| card in cards && card.category == categories[k].id && fmt(card) == Success(c);
        }
      }
    }
  }

  /** The children of the k-th node are formatted from cards of the k-th category, in sort order. */
  lemma NodeChildren(fmt: Card -> Result<CardTreeChildVo, ServiceError>, cards: seq<Card>, categories: seq<Category>, k: int)
    requires BuildNodes(GroupChildren(fmt, cards), categories).Success?
    requires 0 <= k < |categories|
    ensures var n := BuildNodes(GroupChildren(fmt, cards), categories).value[k];
      && n == NodeOf(categories[k], n.children)
      && CardChildren(fmt, GroupOf(cards, categories[k].id)) == Success(n.children)
      && SortedBy(n.children, ChildRank)
      && forall c :: c in n.children ==> exists card :: card in cards && card.category == categories[k].id && fmt(card) == Success(c)
  {
    var group := GroupOf(cards, categories[k].id);
    assert GroupChildren(fmt, cards)(categories[k].id) == CardChildren(fmt, group);
    CardChildrenMembers(fmt, group);
    GroupOfMembers(cards, categories[k].id);
    var n := BuildNodes(GroupChildren(fmt, cards), categories).value[k];
    forall c | c in n.children ensures exists card :: card in cards && card.category == categories[k].id && fmt(card) == Success(c) {
      var i :| 0 <= i < |group| && fmt(group[i]) == Success(c);
      assert group[i] in group;
    }
  }

  /**
   * Every listed category that has cards appears in tree's result, with one child per card of
   * that category (GroupOfCount gives the group's size).
   */
  lemma TreeComplete(registry: map<CardType, Handler>, getEnum: string -> Option<CardType>,
                     format: (Handler, CardTreeChildVo) -> CardTreeChildVo,
                     categories: seq<Category>, keywords: Option<string>,
                     findAll: seq<Card>, findByKeywords: string -> seq<Card>, k: int)
    requires 0 <= k < |categories|
    requires Tree(registry, getEnum, format, categories, keywords, findAll, findByKeywords).Success?
    requires GroupOf(TreeCards(keywords, findAll, findByKeywords), categories[k].id) != []
    ensures var group := GroupOf(TreeCards(keywords, findAll, findByKeywords), categories[k].id);
      exists n :: n in Tree(registry, getEnum, format, categories, keywords, findAll, findByKeywords).value
        && n == NodeOf(categories[k], n.children)
        && CardChildren(Formatter(registry, getEnum, format), group) == Success(n.children)
        && |n.children| == |group|
  {
    var cards := TreeCards(keywords, findAll, findByKeywords);
    var fmt := Formatter(registry, getEnum, format);
    assert cards != [] by {
      GroupOfMembers(cards, categories[k].id);
      assert GroupOf(cards, categories[k].id)[0] in GroupOf(cards, categories[k].id);
    }
    var nodes := BuildNodes(GroupChildren(fmt, cards), categories).value;
    NodeChildren(fmt, cards, categories, k);
    var n := nodes[k];
    assert n in NonEmptyNodes(nodes);
    var r := Tree(registry, getEnum, format, categories, keywords, findAll, findByKeywords);
    assert n in multiset(r.value);
  }

  /** A failing tree reports a null sort or the type error of a shown card of a listed category. */
  lemma TreeFailure(registry: map<CardType, Handler>, getEnum: string -> Option<CardType>,
                    format: (Handler, CardTreeChildVo) -> CardTreeChildVo,
                    categories: seq<Category>, keywords: Option<string>,
                    findAll: seq<Card>, findByKeywords: string -> seq<Card>)
    ensures var r := Tree(registry, getEnum, format, categories, keywords, findAll, findByKeywords);
      r.Failure? ==> (r.error == NullSortKey ||
        exists card, k :: card in TreeCards(keywords, findAll, findByKeywords) && 0 <= k < |categories|
                          && card.category == categories[k].id
                          && FormatCard(registry, getEnum, format, card) == Failure(r.error))
  {
    var cards := TreeCards(keywords, findAll, findByKeywords);
    var r := Tree(registry, getEnum, format, categories, keywords, findAll, findByKeywords);
    if r.Failure? && r.error != NullSortKey {
      var fmt := Formatter(registry, getEnum, format);
      var k :| 0 <= k < |categories| && GroupChildren(fmt, cards)(categories[k].id) == Failure(r.error);
      var group := GroupOf(cards, categories[k].id);
      assert CardChildren(fmt, group) == Failure(r.error);
      var i :| 0 <= i < |group| && fmt(group[i]) == Failure(r.error);
      GroupOfMembers(cards, categories[k].id);
      assert group[i] in group;
      assert FormatCard(registry, getEnum, format, group[i]) == Failure(r.error);
    }
  }

  /** Conversely, a shown card of a listed category whose type does not resolve makes tree fail. */
  lemma TreeFailsOnUnresolvedCard(registry: map<CardType, Handler>, getEnum: string -> Option<CardType>,
                                  format: (Handler, CardTreeChildVo) -> CardTreeChildVo,
                                  categories: seq<Category>, keywords: Option<string>,
                                  findAll: seq<Card>, findByKeywords: string -> seq<Card>, card: Card, k: int)
    requires 0 <= k < |categories| && card.category == categories[k].id
    requires card in TreeCards(keywords, findAll, findByKeywords)
    requires FormatCard(registry, getEnum, format, card).Failure?
    ensures Tree(registry, getEnum, format, categories, keywords, findAll, findByKeywords).Failure?
  {
    var cards := TreeCards(keywords, findAll, findByKeywords);
    var fmt := Formatter(registry, getEnum, format);
    var group := GroupOf(cards, categories[k].id);
    GroupOfMembers(cards, categories[k].id);
    assert card in group;
    var i :| 0 <= i < |group| && group[i] == card;
    assert fmt(group[i]).Failure?;
    assert CardChildren(fmt, group).Failure?;
    assert GroupChildren(fmt, cards)(categories[k].id).Failure?;
    assert BuildNodes(GroupChildren(fmt, cards), categories).Failure?;
  }
}
