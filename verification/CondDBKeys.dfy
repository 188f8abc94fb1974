/** The evolution axis: 64-bit keys, half-open validity intervals. */
module CondDBKeys {

  const MINUS_INF := -0x8000_0000_0000_0000
  const PLUS_INF := 0x7fff_ffff_ffff_ffff

  type Key = k: int | MINUS_INF <= k <= PLUS_INF witness 0

  predicate Within(since: Key, p: Key, till: Key) {
    since <= p < till
  }

  function Min(a: Key, b: Key): Key {
    if a <= b then a else b
  }

  function Max(a: Key, b: Key): Key {
    if a <= b then b else a
  }
}
