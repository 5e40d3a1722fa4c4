/**
 * The card type handler registry: a map from card type enum constants to the handler
 * service registered for each, built once at startup from the handlers' declarations.
 */
module CardTypes {
  import opened Wrappers
  import opened ServiceErrors

  /** A CardTypeEnum constant, identified by its name; the set of constants lives outside this core. */
  datatype CardType = CardType(name: string)

  /** An ICardTypeService bean, identified by its bean name. */
  datatype Handler = Handler(name: string)

  /**
   * One entry of the injected handler list: the handler and the value of its @CardType
   * annotation, None when the class carries no annotation.
   */
  datatype Declaration = Declaration(service: Handler, annotation: Option<seq<CardType>>)

  /** Map.put of handler h under every type of ts, in order. */
  function PutAll(m: map<CardType, Handler>, h: Handler, ts: seq<CardType>): map<CardType, Handler> {
    if ts == [] then m else PutAll(m, h, ts[..|ts| - 1])[ts[|ts| - 1] := h]
  }

  /** The map that registration of the declarations, one after the other, leaves behind. */
  function Registered(decls: seq<Declaration>): map<CardType, Handler> {
    if decls == [] then map[]
    else
      var before := Registered(decls[..|decls| - 1]);
      var last := decls[|decls| - 1];
      match last.annotation
      case None => before
      case Some(ts) => PutAll(before, last.service, ts)
  }

  /** Entry i of decls is annotated and lists type t. */
  predicate Declares(decls: seq<Declaration>, i: int, t: CardType) {
    0 <= i < |decls| && decls[i].annotation.Some? && t in decls[i].annotation.value
  }

  /** No entry after i declares t. */
  predicate LastToDeclare(decls: seq<Declaration>, i: int, t: CardType) {
    Declares(decls, i, t) && forall j :: i < j < |decls| ==> !Declares(decls, j, t)
  }

  /** The two-stage lookup: parse the type string, then look the constant up. */
  function Resolve(registry: map<CardType, Handler>, parsed: Option<CardType>, cardType: string): (r: Result<Handler, ServiceError>)
    ensures r == Failure(InvalidCardType(cardType)) <==> parsed.None?
    ensures r == Failure(CardTypeNotImplemented(cardType)) <==> parsed.Some? && parsed.value !in registry
    ensures r.Success? <==> parsed.Some? && parsed.value in registry
    ensures r.Success? ==> r.value == registry[parsed.value]
  {
    match parsed
    case None => Failure(InvalidCardType(cardType))
    case Some(e) => if e in registry then Success(registry[e]) else Failure(CardTypeNotImplemented(cardType))
  }

  lemma {:induction false} PutAllSpec(m: map<CardType, Handler>, h: Handler, ts: seq<CardType>, t: CardType)
    ensures t in PutAll(m, h, ts) <==> t in m || t in ts
    ensures t in ts ==> PutAll(m, h, ts)[t] == h
    ensures t !in ts && t in m ==> PutAll(m, h, ts)[t] == m[t]
  {
    if ts != [] {
      PutAllSpec(m, h, ts[..|ts| - 1], t);
      assert ts == ts[..|ts| - 1] + [ts[|ts| - 1]];
    }
  }

  /** A type is registered exactly when some annotated handler in the list declares it. */
  lemma {:induction false} RegisteredDomain(decls: seq<Declaration>, t: CardType)
    ensures t in Registered(decls) <==> exists i :: Declares(decls, i, t)
  {
    if decls != [] {
      var n := |decls| - 1;
      var prefix := decls[..n];
      RegisteredDomain(prefix, t);
      var last := decls[n];
      if last.annotation.Some? {
        PutAllSpec(Registered(prefix), last.service, last.annotation.value, t);
      }
      if t in Registered(decls) && !Declares(decls, n, t) {
        var i :| Declares(prefix, i, t);
        assert Declares(decls, i, t);
      }
      if (exists i :: Declares(decls, i, t)) && !Declares(decls, n, t) {
        var i :| Declares(decls, i, t);
        assert Declares(prefix, i, t);
      }
    }
  }

  /** A registered type belongs to the LAST handler in the list that declares it: put overwrites. */
  lemma {:induction false} RegisteredOwner(decls: seq<Declaration>, i: int, t: CardType)
    requires LastToDeclare(decls, i, t)
    ensures t in Registered(decls) && Registered(decls)[t] == decls[i].service
  {
    var n := |decls| - 1;
    var prefix := decls[..n];
    var last := decls[n];
    if i == n {
      PutAllSpec(Registered(prefix), last.service, last.annotation.value, t);
    } else {
      assert LastToDeclare(prefix, i, t) by {
        forall j | i < j < |prefix| ensures !Declares(prefix, j, t) {
          assert !Declares(decls, j, t);
        }
      }
      RegisteredOwner(prefix, i, t);
      assert !Declares(decls, n, t);
      if last.annotation.Some? {
        PutAllSpec(Registered(prefix), last.service, last.annotation.value, t);
      }
    }
  }

  /** Every value of the map is the handler of an annotated entry that declares its key. */
  lemma {:induction false} RegisteredValues(decls: seq<Declaration>, t: CardType)
    requires t in Registered(decls)
    ensures exists i :: Declares(decls, i, t) && decls[i].service == Registered(decls)[t]
  {
    var n := |decls| - 1;
    var prefix := decls[..n];
    var last := decls[n];
    if Declares(decls, n, t) {
      PutAllSpec(Registered(prefix), last.service, last.annotation.value, t);
    } else {
      if last.annotation.Some? {
        PutAllSpec(Registered(prefix), last.service, last.annotation.value, t);
      }
      RegisteredValues(prefix, t);
      var i :| Declares(prefix, i, t) && prefix[i].service == Registered(prefix)[t];
      assert Declares(decls, i, t);
    }
  }

  /** A handler whose class carries no @CardType annotation is never a value of the map. */
  lemma UnannotatedNeverRegistered(decls: seq<Declaration>, h: Handler)
    requires forall i :: 0 <= i < |decls| && decls[i].service == h ==> decls[i].annotation.None?
    ensures h !in Registered(decls).Values
  {
    if h in Registered(decls).Values {
      var t :| t in Registered(decls) && Registered(decls)[t] == h;
      RegisteredValues(decls, t);
    }
  }

  /** Every type of a handler's annotation is registered, to it unless a later handler declares it too. */
  lemma EveryDeclaredTypeRegistered(decls: seq<Declaration>, i: int)
    requires 0 <= i < |decls| && decls[i].annotation.Some?
    ensures forall t :: t in decls[i].annotation.value ==> t in Registered(decls)
    ensures forall t :: t in decls[i].annotation.value && LastToDeclare(decls, i, t)
                        ==> Registered(decls)[t] == decls[i].service
  {
    forall t | t in decls[i].annotation.value
      ensures t in Registered(decls)
      ensures LastToDeclare(decls, i, t) ==> Registered(decls)[t] == decls[i].service
    {
      assert Declares(decls, i, t);
      RegisteredDomain(decls, t);
      if LastToDeclare(decls, i, t) {
        RegisteredOwner(decls, i, t);
      }
    }
  }

  /** When two handlers declare the same type, the one later in the list owns it. */
  lemma LaterDeclarationWins(decls: seq<Declaration>, i: int, j: int, t: CardType)
    requires i < j && Declares(decls, i, t) && LastToDeclare(decls, j, t)
    ensures t in Registered(decls) && Registered(decls)[t] == decls[j].service
  {
    RegisteredOwner(decls, j, t);
  }

  /**
   * CardTypeServiceFactory: holds the injected handler list and the map built from it.
   * Only Init writes the map; GetService reads it.
   */
  class CardTypeServiceFactory {
    const cardTypeServiceList: seq<Declaration>
    /** CardTypeEnum.getEnum, whose parsing rule is not part of this model. */
    const getEnum: string -> Option<CardType>
    var cardTypeServiceMap: map<CardType, Handler>

    /** Injection followed by the @PostConstruct call of Init. */
    constructor (services: seq<Declaration>, getEnum: string -> Option<CardType>)
      ensures cardTypeServiceList == services && this.getEnum == getEnum
      ensures cardTypeServiceMap == Registered(services)
    {
      cardTypeServiceList := services;
      this.getEnum := getEnum;
      cardTypeServiceMap := map[];
      new;
      Init();
    }

    /** Fills a fresh map: for every annotated handler, put it under each declared type. */
    method Init()
      modifies this`cardTypeServiceMap
      ensures cardTypeServiceMap == Registered(cardTypeServiceList)
    {
      cardTypeServiceMap := map[];
      for i := 0 to |cardTypeServiceList|
        invariant cardTypeServiceMap == Registered(cardTypeServiceList[..i])
      {
        assert cardTypeServiceList[..i + 1][..i] == cardTypeServiceList[..i];
        var service := cardTypeServiceList[i].service;
        var cardType := cardTypeServiceList[i].annotation;
        if cardType.Some? {
          var types := cardType.value;
          for k := 0 to |types|
            invariant cardTypeServiceMap == PutAll(Registered(cardTypeServiceList[..i]), service, types[..k])
          {
            assert types[..k + 1][..k] == types[..k];
            cardTypeServiceMap := cardTypeServiceMap[types[k] := service];
          }
          assert types[..|types|] == types;
        }
      }
      assert cardTypeServiceList[..|cardTypeServiceList|] == cardTypeServiceList;
    }

    /** Parses the type string and returns its handler; changes nothing. */
    method GetService(cardType: string) returns (r: Result<Handler, ServiceError>)
      ensures r == Resolve(cardTypeServiceMap, getEnum(cardType), cardType)
    {
      var cardTypeEnum := getEnum(cardType);
      if cardTypeEnum.None? {
        return Failure(InvalidCardType(cardType));
      }
      if cardTypeEnum.value !in cardTypeServiceMap {
        return Failure(CardTypeNotImplemented(cardType));
      }
      r := Success(cardTypeServiceMap[cardTypeEnum.value]);
    }
  }
}
