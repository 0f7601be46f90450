/**
  The composite cache key of a linked program: the GL names of its pixel
  shader and of its vertex shader, two 32-bit values packed into one 64-bit
  value with the pixel shader in the high half.

  The shifts and masks of the packing are written as the arithmetic they
  perform on unsigned values: shifting left by 32 multiplies by 2^32, or-ing a
  32-bit value into an all-zero low half adds it, masking the high half and
  shifting right by 32 divides by 2^32, and masking the low half takes the
  remainder modulo 2^32.
 */
module ShaderPair {

  const Two32: int := 0x1_0000_0000

  /** A GL object name (`GLuint`); the name 0 denotes no object. */
  newtype GLuint = x: int | 0 <= x < 0x1_0000_0000

  /** The 64-bit key of the program cache (`u64`). */
  newtype PairKey = x: int | 0 <= x < 0x1_0000_0000_0000_0000

  /** `Create_Pair`: the pixel-shader name goes in the high half, the
      vertex-shader name in the low half. Unpacking recovers both names, and
      the key is 0 exactly when both names are 0. */
  function CreatePair(ps: GLuint, vs: GLuint): (k: PairKey)
    ensures GetPair(k) == (ps, vs)
    ensures k == 0 <==> ps == 0 && vs == 0
  {
    (ps as int * Two32 + vs as int) as PairKey
  }

  /** `Get_Pair`: the high half first, then the low half. The two halves
      put back together give the key. */
  function GetPair(k: PairKey): (ids: (GLuint, GLuint))
    ensures ids.0 as int * Two32 + ids.1 as int == k as int
  {
    ((k as int / Two32) as GLuint, (k as int % Two32) as GLuint)
  }

  /** Every 64-bit key is the packing of the pair it unpacks to, so packing is
      onto as well as one-to-one. */
  lemma CreateAfterGet(k: PairKey)
    ensures CreatePair(GetPair(k).0, GetPair(k).1) == k
  {
  }

  /** Packing is one-to-one: equal keys come from equal pairs. */
  lemma CreatePairInjective(ps: GLuint, vs: GLuint, ps': GLuint, vs': GLuint)
    requires CreatePair(ps, vs) == CreatePair(ps', vs')
    ensures ps == ps' && vs == vs'
  {
    assert GetPair(CreatePair(ps, vs)) == (ps, vs);
    assert GetPair(CreatePair(ps', vs')) == (ps', vs');
  }

  /** The roles of the two names are not interchangeable: swapping two
      different names gives a different key. */
  lemma CreatePairOrderSensitive(a: GLuint, b: GLuint)
    requires a != b
    ensures CreatePair(a, b) != CreatePair(b, a)
  {
    if CreatePair(a, b) == CreatePair(b, a) {
      CreatePairInjective(a, b, b, a);
    }
  }

  /** The key of two real shader objects is never the value 0 that stands for
      "no program bound". */
  lemma NonZeroPairKey(ps: GLuint, vs: GLuint)
    requires ps != 0 && vs != 0
    ensures CreatePair(ps, vs) != 0
  {
  }
}
