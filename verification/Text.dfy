/** Byte strings and their comparison without regard to case. */
module Text {
  type byte = b: nat | b < 256
  type Text = seq<byte>

  function LowerByte(b: byte): byte { if 65 <= b <= 90 then b + 32 else b }

  function Lower(s: Text): Text { seq(|s|, i requires 0 <= i < |s| => LowerByte(s[i])) }

  predicate SameText(s: Text, t: Text) { Lower(s) == Lower(t) }

  /** The same byte, or the upper and the lower case of one letter. */
  predicate SameLetter(a: byte, b: byte) {
    a == b || (65 <= a <= 90 && b == a + 32) || (65 <= b <= 90 && a == b + 32)
  }

  /** As long as each other, and the same byte for byte up to case. */
  predicate EqualUpToCase(s: Text, t: Text) {
    |s| == |t| && forall i | 0 <= i < |s| :: SameLetter(s[i], t[i])
  }

  lemma {:induction false} SameTextExactly(s: Text, t: Text)
    ensures SameText(s, t) <==> EqualUpToCase(s, t)
  {
    assert forall a, b :: SameLetter(a, b) <==> LowerByte(a) == LowerByte(b);
    if SameText(s, t) {
      assert |s| == |Lower(s)| == |Lower(t)| == |t|;
      forall i | 0 <= i < |s| ensures SameLetter(s[i], t[i]) {
        assert Lower(s)[i] == Lower(t)[i];
      }
    }
  }
}
