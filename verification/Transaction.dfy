/** The transaction byte of ReadyForQuery. */
module Transaction {

  const IDLE := 'I' as int

  predicate IsTxState(tx: int) {
    tx == 'I' as int || tx == 'T' as int || tx == 'E' as int
  }
}
