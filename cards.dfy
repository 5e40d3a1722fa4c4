/** The card entities, transfer objects and view objects the card services move between. */
module Cards {
  import opened Wrappers

  /** The value of a card's icon: its source and the decorative attributes, which this core never reads. */
  datatype Icon = Icon(src: Option<string>, attributes: map<string, string>)

  /** CardIconDto: the icon of an incoming card, whose src saveIcon rewrites in place. */
  class CardIconDto {
    var src: Option<string>
    var attributes: map<string, string>

    constructor (src: Option<string>, attributes: map<string, string>)
      ensures this.src == src && this.attributes == attributes
    {
      this.src := src;
      this.attributes := attributes;
    }

    function Value(): Icon
      reads this
    {
      Icon(src, attributes)
    }
  }

  /** The range of java.lang.Integer, the type Card.sort and getMaxSort are taken to have. */
  predicate IsInteger(x: int) {
    -0x8000_0000 <= x < 0x8000_0000
  }

  /** Integer arithmetic wraps: the value of x in 32-bit two's complement. */
  function Wrap32(x: int): (r: int)
    ensures IsInteger(r)
    ensures (x - r) % 0x1_0000_0000 == 0
    ensures IsInteger(x) ==> r == x
  {
    (x + 0x8000_0000) % 0x1_0000_0000 - 0x8000_0000
  }

  /** The key Comparator.comparing orders a nullable sort by; a null is never compared when the sort succeeds. */
  function SortKey(sort: Option<int>): int {
    if sort.Some? then sort.value else 0
  }

  /** CardDto: a card as submitted for saving; its sort may be null. */
  datatype CardDto = CardDto(
    category: string,
    cardType: string,
    title: Option<string>,
    content: Option<string>,
    url: Option<string>,
    icon: CardIconDto,
    sort: Option<int>)

  /** Card: the persisted entity, keyed by id within a category. */
  datatype Card = Card(
    id: string,
    category: string,
    cardType: string,
    title: Option<string>,
    content: Option<string>,
    url: Option<string>,
    icon: Icon,
    sort: Option<int>)

  /** Category, as listed by the category service. */
  datatype Category = Category(id: string, name: string, sort: Option<int>)

  /** CardTreeChildVo: a card as shown under its category in the tree, with its tooltip. */
  datatype CardTreeChildVo = CardTreeChildVo(
    id: string,
    category: string,
    cardType: string,
    title: Option<string>,
    content: Option<string>,
    url: Option<string>,
    icon: Icon,
    sort: Option<int>,
    tip: Option<string>)

  /** CardTreeVo: a category of the tree with its cards. */
  datatype CardTreeVo = CardTreeVo(id: string, name: string, sort: Option<int>, children: seq<CardTreeChildVo>)

  /** CardVo: a card with the name of its category. */
  datatype CardVo = CardVo(card: Card, categoryName: string)

  /** BeanExtUtils.convert(cardDto, Card::new): field-for-field copy; the id is set afterwards. */
  function CardOf(dto: CardDto, id: string): Card
    reads dto.icon
  {
    Card(id, dto.category, dto.cardType, dto.title, dto.content, dto.url, dto.icon.Value(), dto.sort)
  }

  /** BeanExtUtils.convert(card, CardTreeChildVo::new): field-for-field copy, no tip yet. */
  function ChildVoOf(card: Card): CardTreeChildVo {
    CardTreeChildVo(card.id, card.category, card.cardType, card.title, card.content, card.url,
                    card.icon, card.sort, None)
  }
}
