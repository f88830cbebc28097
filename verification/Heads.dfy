// The first byte of a key in a slot's trie says which family of commands it belongs to.
module Heads {
  import opened Bits

  const KV_HEAD: byte := 48 // '0'
  const HASH_HEAD: byte := 49 // '1'
  const SET_HEAD: byte := 50 // '2'
  const LIST_HEAD: byte := 51 // '3'
  const HEAD1: byte := 97 // 'a', a point by its id
  const HEAD2: byte := 98 // 'b', a point by its geohash
}
