/**
 * CardService: the card lifecycle operations over the card repository, with the handler
 * registry resolving each card's type and the handlers' hooks run around persistence.
 */
module CardServices {
  import opened Wrappers
  import opened ServiceErrors
  import opened JavaText
  import opened Sorting
  import opened CardTypes
  import opened Cards
  import opened CardTree
  import opened CardIcons

  /** The cards after saving each card of the list in turn under its id (insert or update). */
  function Upserted(cards: map<string, Card>, list: seq<Card>): map<string, Card> {
    if list == [] then cards
    else Upserted(cards, list[..|list| - 1])[list[|list| - 1].id := list[|list| - 1]]
  }

  /** No card after position i of list has id. */
  predicate LastWithId(list: seq<Card>, i: int, id: string) {
    0 <= i < |list| && list[i].id == id && forall j :: i < j < |list| ==> list[j].id != id
  }

  /** saveAll stores an id afterwards exactly when it was stored before or some card of the list has it. */
  lemma {:induction false} UpsertedDomain(cards: map<string, Card>, list: seq<Card>, id: string)
    ensures id in Upserted(cards, list) <==> id in cards || exists i :: 0 <= i < |list| && list[i].id == id
  {
    if list != [] {
      var n := |list| - 1;
      var prefix := list[..n];
      UpsertedDomain(cards, prefix, id);
      if list[n].id != id && exists i :: 0 <= i < |list| && list[i].id == id {
        var i :| 0 <= i < |list| && list[i].id == id;
        assert prefix[i].id == id;
      }
    }
  }

  /** After saveAll, an id of the list holds the last card of the list with that id. */
  lemma {:induction false} UpsertedLastWins(cards: map<string, Card>, list: seq<Card>, i: int, id: string)
    requires LastWithId(list, i, id)
    ensures id in Upserted(cards, list) && Upserted(cards, list)[id] == list[i]
  {
    var n := |list| - 1;
    if i < n {
      var prefix := list[..n];
      assert LastWithId(prefix, i, id);
      UpsertedLastWins(cards, prefix, i, id);
    }
  }

  /** saveAll leaves every id that no card of the list has as it was. */
  lemma {:induction false} UpsertedUntouched(cards: map<string, Card>, list: seq<Card>, id: string)
    requires forall i :: 0 <= i < |list| ==> list[i].id != id
    ensures id in Upserted(cards, list) <==> id in cards
    ensures id in cards ==> Upserted(cards, list)[id] == cards[id]
  {
    if list != [] {
      var n := |list| - 1;
      UpsertedUntouched(cards, list[..n], id);
    }
  }

  /** CardRepository: the persisted cards by id. */
  class CardRepository {
    var cards: map<string, Card>

    constructor (cards: map<string, Card>)
      ensures this.cards == cards
    {
      this.cards := cards;
    }

    method FindById(id: string) returns (r: Option<Card>)
      ensures r.Some? <==> id in cards
      ensures r.Some? ==> r.value == cards[id]
    {
      r := if id in cards then Some(cards[id]) else None;
    }

    method Save(card: Card)
      modifies this
      ensures cards == old(cards)[card.id := card]
    {
      cards := cards[card.id := card];
    }

    method SaveAll(list: seq<Card>)
      modifies this
      ensures cards == Upserted(old(cards), list)
    {
      cards := Upserted(cards, list);
    }

    method DeleteById(id: string)
      modifies this
      ensures cards == old(cards) - {id}
    {
      cards := cards - {id};
    }
  }

  /** The per-type hooks of the handlers, whose bodies are not part of this model. */
  datatype CardTypeHooks = CardTypeHooks(
    /** ICardTypeService.formatCardVo: decorates the tree view of a card. */
    formatCardVo: (Handler, CardTreeChildVo) -> CardTreeChildVo,
    /** ICardTypeService.supplySave: adjusts a card before it is saved, given the id the caller passed. */
    supplySave: (Handler, Option<string>, Card) -> Card)

  /** The id save stores a card under: a fresh one when the given id is blank. */
  function AssignedId(id: Option<string>, generated: string): (r: string)
    ensures IsBlank(id) ==> r == generated
    ensures !IsBlank(id) ==> id.Some? && r == id.value
  {
    if IsBlank(id) then generated else id.value
  }

  /**
   * The card save persists, from the converted card: resolve the handler, run supplySave, then
   * fill a null sort with getMaxSort + 1, an Integer sum that wraps at Integer.MAX_VALUE.
   */
  function SavedCard(registry: map<CardType, Handler>, getEnum: string -> Option<CardType>,
                     supplySave: (Handler, Option<string>, Card) -> Card,
                     id: Option<string>, card: Card, getMaxSort: string -> int): Result<Card, ServiceError>
  {
    match Resolve(registry, getEnum(card.cardType), card.cardType)
    case Failure(e) => Failure(e)
    case Success(h) =>
      var supplied := supplySave(h, id, card);
      if supplied.sort == None then Success(supplied.(sort := Some(Wrap32(getMaxSort(supplied.category) + 1))))
      else Success(supplied)
  }

  /**
   * save fails exactly when the card's type does not resolve; otherwise the saved card is
   * the one the hook returned, with a sort always present: the hook's sort when it set one,
   * else getMaxSort + 1 in Integer arithmetic: max + 1 below Integer.MAX_VALUE, Integer.MIN_VALUE at it.
   */
  lemma SavedCardSpec(registry: map<CardType, Handler>, getEnum: string -> Option<CardType>,
                      supplySave: (Handler, Option<string>, Card) -> Card,
                      id: Option<string>, card: Card, getMaxSort: string -> int)
    ensures var r := SavedCard(registry, getEnum, supplySave, id, card, getMaxSort);
      var resolved := Resolve(registry, getEnum(card.cardType), card.cardType);
      && (r.Failure? <==> resolved.Failure?)
      && (r.Failure? ==> r.error == resolved.error)
      && (r.Success? ==>
            var supplied := supplySave(resolved.value, id, card);
            && r.value.sort.Some?
            && r.value.(sort := supplied.sort) == supplied
            && (supplied.sort.Some? ==> r.value.sort == supplied.sort)
            && (supplied.sort.None? ==> IsInteger(r.value.sort.value)
                                        && (r.value.sort.value - getMaxSort(supplied.category) - 1) % 0x1_0000_0000 == 0)
            && (supplied.sort.None? && IsInteger(getMaxSort(supplied.category)) && getMaxSort(supplied.category) < 0x7fff_ffff
                ==> r.value.sort == Some(getMaxSort(supplied.category) + 1))
            && (supplied.sort.None? && getMaxSort(supplied.category) == 0x7fff_ffff ==> r.value.sort == Some(-0x8000_0000)))
  {
    var resolved := Resolve(registry, getEnum(card.cardType), card.cardType);
    if resolved.Success? {
      var supplied := supplySave(resolved.value, id, card);
      var next := getMaxSort(supplied.category) + 1;
      assert IsInteger(getMaxSort(supplied.category)) && getMaxSort(supplied.category) < 0x7fff_ffff ==> IsInteger(next);
    }
  }

  /**
   * The key save stores under: the converted card carries AssignedId's id, so when the type's
   * supplySave hook keeps that id, a blank given id stores under the generated one and a
   * non-blank given id under exactly itself.
   */
  lemma SavedCardKey(registry: map<CardType, Handler>, getEnum: string -> Option<CardType>,
                     supplySave: (Handler, Option<string>, Card) -> Card,
                     id: Option<string>, card: Card, generated: string, getMaxSort: string -> int)
    requires card.id == AssignedId(id, generated)
    requires var resolved := Resolve(registry, getEnum(card.cardType), card.cardType);
      resolved.Success? ==> supplySave(resolved.value, id, card).id == card.id
    ensures var r := SavedCard(registry, getEnum, supplySave, id, card, getMaxSort);
      && (r.Success? && IsBlank(id) ==> r.value.id == generated)
      && (r.Success? && !IsBlank(id) ==> id.Some? && r.value.id == id.value)
  {
    var resolved := Resolve(registry, getEnum(card.cardType), card.cardType);
    if resolved.Success? {
      var supplied := supplySave(resolved.value, id, card);
      assert SavedCard(registry, getEnum, supplySave, id, card, getMaxSort).value.id == supplied.id;
    }
  }

  /** The cards of CardService.select: each card of the query with its category's name, in query order. */
  function Select(list: seq<Card>, categoryName: string -> string): (r: seq<CardVo>)
    ensures |r| == |list|
    ensures forall i :: 0 <= i < |list| ==> r[i] == CardVo(list[i], categoryName(list[i].category))
  {
    if list == [] then [] else [CardVo(list[0], categoryName(list[0].category))] + Select(list[1..], categoryName)
  }

  function CardRank(vo: CardVo): int {
    SortKey(vo.card.sort)
  }

  function StoredRank(card: Card): int {
    SortKey(card.sort)
  }

  /** select keeps the repository's ascending sort order and labels one category's cards with one name. */
  lemma SelectKeepsOrder(list: seq<Card>, categoryName: string -> string, category: string)
    requires SortedBy(list, StoredRank)
    requires forall k :: 0 <= k < |list| ==> list[k].category == category
    ensures SortedBy(Select(list, categoryName), CardRank)
    ensures forall vo :: vo in Select(list, categoryName) ==> vo.categoryName == categoryName(category) && vo.card in list
  {
  }

  class CardService {
    const cardRepository: CardRepository
    const cardTypeServiceFactory: CardTypeServiceFactory
    const hooks: CardTypeHooks
    /** The invocations of ICardTypeService.supplyDelete so far: the handler and the card it was given. */
    var supplyDeleteCalls: seq<(Handler, Card)>

    constructor (cardRepository: CardRepository, cardTypeServiceFactory: CardTypeServiceFactory, hooks: CardTypeHooks)
      ensures this.cardRepository == cardRepository && this.cardTypeServiceFactory == cardTypeServiceFactory
      ensures this.hooks == hooks && supplyDeleteCalls == []
    {
      this.cardRepository := cardRepository;
      this.cardTypeServiceFactory := cardTypeServiceFactory;
      this.hooks := hooks;
      supplyDeleteCalls := [];
    }

    /** setCardChildren: format each card through its handler and give it its tooltip, then sort by sort. */
    method SetCardChildren(cardList: seq<Card>) returns (r: Result<seq<CardTreeChildVo>, ServiceError>)
      ensures r == CardChildren(Formatter(cardTypeServiceFactory.cardTypeServiceMap, cardTypeServiceFactory.getEnum,
                                          hooks.formatCardVo), cardList)
    {
      if cardList == [] {
        return Success([]);
      }
      ghost var fmt := Formatter(cardTypeServiceFactory.cardTypeServiceMap, cardTypeServiceFactory.getEnum, hooks.formatCardVo);
      var result: seq<CardTreeChildVo> := [];
      assert cardList[0..] == cardList;
      assert Prepended([], FormatAll(fmt, cardList))
             == FormatAll(fmt, cardList) by {
        var all := FormatAll(fmt, cardList);
        if all.Success? {
          assert [] + all.value == all.value;
        }
      }
      for i := 0 to |cardList|
        invariant FormatAll(fmt, cardList)
                  == Prepended(result, FormatAll(fmt, cardList[i..]))
      {
        var card := cardList[i];
        var vo := ChildVoOf(card);
        var service := cardTypeServiceFactory.GetService(card.cardType);
        if service.Failure? {
          assert FormatAll(fmt, cardList) == Failure(service.error) by {
            FormatAllStep(fmt, cardList, i);
          }
          return Failure(service.error);
        }
        vo := hooks.formatCardVo(service.value, vo);
        vo := WithTip(vo);
        assert FormatAll(fmt, cardList) == Prepended(result + [vo], FormatAll(fmt, cardList[i + 1..])) by {
          FormatAllStep(fmt, cardList, i);
          PrependedTwice(result, [vo], FormatAll(fmt, cardList[i + 1..]));
        }
        result := result + [vo];
      }
      assert cardList[|cardList|..] == [];
      assert result + [] == result;
      assert FormatAll(fmt, cardList) == Success(result);
      CardChildrenFormatted(fmt, cardList, result);
      r := SortChildren(result);
    }

    /** saveIcon: mirror an "http" icon into the dated cache directory, rewriting src only when the download succeeds. */
    method SaveIcon(cardIconDto: CardIconDto, today: LocalDate, uuid: string, ext: string, mkdirOk: bool, downloadOk: bool)
      returns (r: Outcome<ServiceError>)
      requires ValidDate(today)
      modifies cardIconDto`src
      ensures match SavedIconSrc(old(cardIconDto.src), today, uuid, ext, mkdirOk, downloadOk)
        case Failure(e) => r == Fail(e) && cardIconDto.src == old(cardIconDto.src)
        case Success(src) => r == Pass && cardIconDto.src == src
    {
      if !StartsWith(cardIconDto.src, "http") {
        return Pass;
      }
      var path := IconPath(today, uuid, ext);
      if !mkdirOk {
        return Fail(ResourceWrite);
      }
      if downloadOk {
        cardIconDto.src := Some(path);
      }
      r := Pass;
    }

    /**
     * save: cache the icon, convert the dto, assign the id (fresh when the given one is blank),
     * run the type's supplySave hook, fill a null sort with max + 1 and persist.
     */
    method Save(id: Option<string>, cardDto: CardDto, today: LocalDate, iconUuid: string, ext: string,
                mkdirOk: bool, downloadOk: bool, cardUuid: string, getMaxSort: string -> int)
      returns (r: Outcome<ServiceError>)
      requires ValidDate(today)
      modifies cardDto.icon`src, cardRepository
      ensures match SavedIconSrc(old(cardDto.icon.src), today, iconUuid, ext, mkdirOk, downloadOk)
        case Failure(e) =>
          r == Fail(e) && cardDto.icon.src == old(cardDto.icon.src) && cardRepository.cards == old(cardRepository.cards)
        case Success(src) =>
          && cardDto.icon.src == src
          && match SavedCard(cardTypeServiceFactory.cardTypeServiceMap, cardTypeServiceFactory.getEnum, hooks.supplySave,
                             id, CardOf(cardDto, AssignedId(id, cardUuid)), getMaxSort)
             case Failure(e) => r == Fail(e) && cardRepository.cards == old(cardRepository.cards)
             case Success(card) => r == Pass && cardRepository.cards == old(cardRepository.cards)[card.id := card]
    {
      var saved := SaveIcon(cardDto.icon, today, iconUuid, ext, mkdirOk, downloadOk);
      if saved.Fail? {
        return saved;
      }
      var card := CardOf(cardDto, AssignedId(id, cardUuid));
      var service := cardTypeServiceFactory.GetService(card.cardType);
      if service.Failure? {
        return Fail(service.error);
      }
      card := hooks.supplySave(service.value, id, card);
      if card.sort == None {
        card := card.(sort := Some(Wrap32(getMaxSort(card.category) + 1)));
      }
      cardRepository.Save(card);
      r := Pass;
    }

    /**
     * changeSort: the reordering of the category's cards (its algorithm is not part of this
     * model) returns the cards to update; an empty list changes nothing, else exactly those are saved.
     */
    method ChangeSort(category: string, before: int, after: int,
                      findByCategoryOrderBySortAsc: string -> seq<Card>,
                      reorder: (seq<Card>, int, int) -> seq<Card>)
      modifies cardRepository
      ensures var updateList := reorder(findByCategoryOrderBySortAsc(category), before, after);
        cardRepository.cards == if updateList == [] then old(cardRepository.cards)
                                else Upserted(old(cardRepository.cards), updateList)
    {
      var updateList := reorder(findByCategoryOrderBySortAsc(category), before, after);
      if updateList == [] {
        return;
      }
      cardRepository.SaveAll(updateList);
    }

    /**
     * delete: an unknown id raises before anything changes; otherwise the card is removed,
     * then its type is resolved and the handler's supplyDelete hook gets the card as loaded.
     * A type that does not resolve raises after the removal.
     */
    method Delete(id: string) returns (r: Outcome<ServiceError>)
      modifies cardRepository, this`supplyDeleteCalls
      ensures id !in old(cardRepository.cards) ==>
        r == Fail(CardNotFound(id)) && cardRepository.cards == old(cardRepository.cards)
        && supplyDeleteCalls == old(supplyDeleteCalls)
      ensures id in old(cardRepository.cards) ==>
        var card := old(cardRepository.cards)[id];
        && cardRepository.cards == old(cardRepository.cards) - {id}
        && match Resolve(cardTypeServiceFactory.cardTypeServiceMap, cardTypeServiceFactory.getEnum(card.cardType), card.cardType)
           case Failure(e) => r == Fail(e) && supplyDeleteCalls == old(supplyDeleteCalls)
           case Success(h) => r == Pass && supplyDeleteCalls == old(supplyDeleteCalls) + [(h, card)]
    {
      var found := cardRepository.FindById(id);
      if found.None? {
        return Fail(CardNotFound(id));
      }
      var card := found.value;
      cardRepository.DeleteById(id);
      var service := cardTypeServiceFactory.GetService(card.cardType);
      if service.Failure? {
        return Fail(service.error);
      }
      supplyDeleteCalls := supplyDeleteCalls + [(service.value, card)];
      r := Pass;
    }
  }
}
