/**
 * The rotate macros of include/silk/utils.h: SILK_ROL(L, V, B) and SILK_ROR(L, V, B)
 * rotate an L-bit value V by B bits.  C leaves a shift by L or more undefined, so the
 * macros are only meaningful for 0 < B < L; that is their precondition here.  The model
 * instantiates them at L = 32, the width the MurmurHash3 implementation uses.
 */
module Utils {
  /** SILK_ROL with L = 32: (V << B) | (V >> (32 - B)). */
  function Rol32(v: bv32, b: bv32): bv32
    requires 0 < b < 32
  {
    (v << b) | (v >> (32 - b))
  }

  /** SILK_ROR with L = 32: (V >> B) | (V << (32 - B)). */
  function Ror32(v: bv32, b: bv32): bv32
    requires 0 < b < 32
  {
    (v >> b) | (v << (32 - b))
  }

  /** Rotating right by B undoes rotating left by B. */
  lemma RorUndoesRol(v: bv32, b: bv32)
    requires 0 < b < 32
    ensures Ror32(Rol32(v, b), b) == v
  {
  }

  /** Rotating left by B undoes rotating right by B. */
  lemma RolUndoesRor(v: bv32, b: bv32)
    requires 0 < b < 32
    ensures Rol32(Ror32(v, b), b) == v
  {
  }

  /** A left rotation by B is a right rotation by L - B. */
  lemma RotateComplement32(v: bv32, b: bv32)
    requires 0 < b < 32
    ensures Rol32(v, b) == Ror32(v, 32 - b)
  {
  }
}
