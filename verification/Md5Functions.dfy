/** The basic functions of MD5 (src/core/ngx_md5.c) and their definition in section 3.4 of RFC 1321. */
module Md5Functions {
  type Word = bv32

  /** F without an and-not. */
  lemma OptimisedF(x: Word, y: Word, z: Word)
    ensures z ^ (x & (y ^ z)) == (x & y) | (!x & z)
  {
  }

  /** G without an and-not. */
  lemma OptimisedG(x: Word, y: Word, z: Word)
    ensures y ^ (z & (x ^ y)) == (x & z) | (y & !z)
  {
  }
}
