/** The exceptions the card services raise, one constructor per failure path. */
module ServiceErrors {

  datatype ServiceError =
    /** IllegalArgumentException from Assert.notNull: the type string names no CardTypeEnum constant. */
    | InvalidCardType(cardType: string)
    /** NullPointerException from Objects.requireNonNull: the enum constant has no registered handler. */
    | CardTypeNotImplemented(cardType: string)
    /** NullPointerException raised inside Comparator.comparing when a compared sort value is null. */
    | NullSortKey
    /** ResourceWriteException: the parent directory of a cached icon could not be created. */
    | ResourceWrite
    /** NullPointerException from Optional.orElseThrow: no card has the given id. */
    | CardNotFound(id: string)
}
