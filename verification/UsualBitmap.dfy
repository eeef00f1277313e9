/** The `usual` table of src/http/ngx_http_parse.c: one bit for every octet without a special role. */
module UsualBitmap {
  import opened Bytes

  /** The words of the table, non-Win32 variant. */
  const USUAL: seq<nat> := [
    0xffffdbfe, 0x7fff37d6, 0xffffffff, 0xffffffff, 0xffffffff, 0xffffffff, 0xffffffff, 0xffffffff]

  /** Bit k of w: the C test `w & (1 << k)`. */
  predicate Bit(w: nat, k: nat)
    decreases k
  {
    if k == 0 then w % 2 == 1 else Bit(w / 2, k - 1)
  }

  /** The C test `usual[ch >> 5] & (1 << (ch & 0x1f))`. */
  predicate IsUsual(ch: byte) {
    Bit(USUAL[ch / 32], ch % 32)
  }

  /** v with a zero bit and then m one bits appended below it. */
  function Ones(v: nat, m: nat): nat {
    if m == 0 then v else 2 * Ones(v, m - 1) + 1
  }

  lemma {:induction false} OnesBelow(v: nat, m: nat, k: nat)
    ensures Bit(2 * Ones(v, m), k) <==> 0 < k && (k <= m || Bit(v, k - m - 1))
    decreases m, k
  {
    if m > 0 && k > 0 {
      var w := Ones(v, m - 1);
      assert Bit(2 * Ones(v, m), k) == Bit(2 * w + 1, k - 1);
      if k > 1 {
        OnesBelow(v, m - 1, k - 1);
        assert Bit(2 * w + 1, k - 1) == Bit(w, k - 2) == Bit(2 * w, k - 1);
      }
    }
  }

  lemma {:induction false} OnesAdd(v: nat, a: nat, b: nat)
    ensures Ones(Ones(v, a), b) == Ones(v, a + b)
  {
    if b > 0 {
      OnesAdd(v, a, b - 1);
    }
  }

  lemma NoBits(k: nat)
    ensures !Bit(0, k)
  {
  }

  lemma EighteenOnes()
    ensures 2 * Ones(0, 18) == 0x7fffe
  {
    OnesAdd(0, 6, 6);
    OnesAdd(0, 12, 6);
    assert Ones(0, 6) == 0x3f && Ones(0x3f, 6) == 0xfff && Ones(0xfff, 6) == 0x3ffff;
  }

  lemma FifteenOnes()
    ensures 2 * Ones(0, 15) == 0xfffe
  {
    OnesAdd(0, 8, 7);
    assert Ones(0, 8) == 0xff && Ones(0xff, 7) == 0x7fff;
  }

  lemma ControlHigh(k: nat)
    requires k < 22
    ensures Bit(0x3ffff6, k) <==> k != 0 && k != 3
  {
    assert 0x3ffff6 == 2 * Ones(0x7fffe, 2);
    OnesBelow(0x7fffe, 2, k);
    if k >= 3 {
      EighteenOnes();
      OnesBelow(0, 18, k - 3);
    }
  }

  lemma ControlWord(k: nat)
    requires k < 32
    ensures Bit(0xffffdbfe, k) <==> k !in {0, 10, 13}
  {
    assert 0xffffdbfe == 2 * Ones(0x3ffff6, 9);
    OnesBelow(0x3ffff6, 9, k);
    if k >= 10 { ControlHigh(k - 10); }
  }

  lemma PunctuationTop(k: nat)
    requires k < 18
    ensures Bit(0x1fffc, k) <==> 2 <= k < 17
  {
    assert 0x1fffc == 2 * Ones(0xfffe, 0);
    OnesBelow(0xfffe, 0, k);
    if k >= 1 {
      FifteenOnes();
      OnesBelow(0, 15, k - 1);
      if k == 17 { NoBits(0); }
    }
  }

  lemma PunctuationHigh(k: nat)
    requires k < 21
    ensures Bit(0xfffe6, k) <==> k !in {0, 3, 4, 20}
  {
    assert 0xfffe6 == 2 * Ones(0x1fffc, 2);
    OnesBelow(0x1fffc, 2, k);
    if k >= 3 { PunctuationTop(k - 3); }
  }

  lemma PunctuationMiddle(k: nat)
    requires k < 27
    ensures Bit(0x3fff9be, k) <==> k !in {0, 6, 9, 10, 26}
  {
    assert 0x3fff9be == 2 * Ones(0xfffe6, 5);
    OnesBelow(0xfffe6, 5, k);
    if k >= 6 { PunctuationHigh(k - 6); }
  }

  lemma PunctuationWord(k: nat)
    requires k < 32
    ensures Bit(0x7fff37d6, k) <==> k !in {0, 3, 5, 11, 14, 15, 31}
  {
    assert 0x7fff37d6 == 2 * Ones(0xfffe6fa, 2);
    OnesBelow(0xfffe6fa, 2, k);
    if k >= 3 {
      assert 0xfffe6fa == 2 * Ones(0x3fff9be, 1);
      OnesBelow(0x3fff9be, 1, k - 3);
      if k >= 5 { PunctuationMiddle(k - 5); }
    }
  }

  lemma ThirtyTwoOnes()
    ensures Ones(0, 32) == 0xffffffff
  {
    OnesAdd(0, 18, 7);
    EighteenOnes();
    assert Ones(0x3ffff, 7) == 0x1ffffff;
    OnesAdd(0, 25, 7);
    assert Ones(0x1ffffff, 7) == 0xffffffff;
  }

  lemma FullWord(k: nat)
    requires k < 32
    ensures Bit(0xffffffff, k)
  {
    ThirtyTwoOnes();
    OnesBelow(0, 32, k + 1);
    assert Bit(2 * 0xffffffff, k + 1) == Bit(0xffffffff, k);
  }

  /** Octets that no state of a URI automaton treats specially. */
  predicate Unreserved(ch: byte) {
    && ch != NUL && ch != LF && ch != CR && ch != SPACE && ch != HASH && ch != PERCENT
    && ch != PLUS && ch != DOT && ch != SLASH && ch != QUESTION
  }

  /** The table marks exactly the unreserved octets. */
  lemma UsualOctets(ch: byte)
    ensures IsUsual(ch) <==> Unreserved(ch)
  {
    var word, k := ch / 32, ch % 32;
    if word == 0 {
      ControlWord(k);
      assert IsUsual(ch) <==> k !in {0, 10, 13};
    } else if word == 1 {
      PunctuationWord(k);
      assert IsUsual(ch) <==> k !in {0, 3, 5, 11, 14, 15, 31};
    } else {
      FullWord(k);
      assert USUAL[word] == 0xffffffff;
    }
  }
}
