/** The alphabet as the codec writes it out (tools/chain-simulator/simulator.py):
    digits and letters in order, without `0`, `I`, `O` and `l`. */
module Base58Alphabet {
  import opened Base58

  const ALPHABET: string := "123456789" + "ABCDEFGH" + "JKLMN" + "PQRSTUVWXYZ" + "abcdefghijk" + "mnopqrstuvwxyz"

  /** Position by position it is `Glyph`, and nothing else belongs to it. */
  lemma AlphabetIsGlyphs()
    ensures |ALPHABET| == 58 && forall d :: 0 <= d < 58 ==> ALPHABET[d] == Glyph(d)
  {
    var a, b, c, d, e, f := "123456789", "ABCDEFGH", "JKLMN", "PQRSTUVWXYZ", "abcdefghijk", "mnopqrstuvwxyz";
    assert ALPHABET == a + b + c + d + e + f;
    assert forall i :: 0 <= i < 9 ==> a[i] == Glyph(i);
    assert forall i :: 0 <= i < 8 ==> b[i] == Glyph(9 + i);
    assert forall i :: 0 <= i < 5 ==> c[i] == Glyph(17 + i);
    assert forall i :: 0 <= i < 11 ==> d[i] == Glyph(22 + i);
    assert forall i :: 0 <= i < 11 ==> e[i] == Glyph(33 + i);
    assert forall i :: 0 <= i < 14 ==> f[i] == Glyph(44 + i);
  }

  lemma AlphabetMembers(c: char)
    ensures c in ALPHABET <==> InAlphabet(c)
  {
    AlphabetIsGlyphs();
    if c in ALPHABET {
      var d :| 0 <= d < |ALPHABET| && ALPHABET[d] == c;
      IndexOfGlyph(d);
    }
    if InAlphabet(c) {
      assert ALPHABET[Index(c)] == c;
    }
  }
}
