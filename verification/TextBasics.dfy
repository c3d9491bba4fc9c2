/** What the text utilities share: the toolkit's idea of white space, and its unsigned numbers. */
module TextBasics {

  const UINT_MODULUS := 0x1_0000_0000

  /** Unicode white space, as the toolkit classifies single code units. */
  predicate IsSpace(c: char) {
    var u := c as int;
    || u == 0x20 || 0x09 <= u <= 0x0D
    || u == 0x85 || u == 0xA0 || u == 0x1680 || 0x2000 <= u <= 0x200A
    || u == 0x2028 || u == 0x2029 || u == 0x202F || u == 0x205F || u == 0x3000
  }

  predicate IsBlank(text: string) {
    forall i | 0 <= i < |text| :: IsSpace(text[i])
  }

  /** A run of characters that is not blank stays so when another one is joined to it. */
  lemma JoinedNotBlank(left: string, right: string)
    ensures IsBlank(left + right) <==> IsBlank(left) && IsBlank(right)
  {
    var both := left + right;
    assert forall i | 0 <= i < |left| :: both[i] == left[i];
    assert forall i | 0 <= i < |right| :: both[|left| + i] == right[i];
  }
}
