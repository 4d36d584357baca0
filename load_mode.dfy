/**
 * The user-selectable input formats and the load-mode flags that make the
 * comparison more or less permissive, with the bitwise operators the
 * C++ code defines on the flags.
 */
module Modes {
  /** A file format the user may force; `Automatic` lets the differ detect it. */
  datatype DataFormat = Automatic | Binary | Text | PPM | Directory

  /** A set of load-mode flags, held in the enum's underlying `int`. */
  type LoadMode = bv32

  const PERMISSIVE: LoadMode := 1
  const STRICT: LoadMode := 2
  const TEXT_STRICT_CASE: LoadMode := 4
  const TEXT_STRICT_WHITESPACE: LoadMode := 8

  /** One of the four single-bit flags. */
  predicate IsFlag(f: LoadMode) {
    f == PERMISSIVE || f == STRICT || f == TEXT_STRICT_CASE || f == TEXT_STRICT_WHITESPACE
  }

  /** `operator|`: every flag of either operand. */
  function Or(lhs: LoadMode, rhs: LoadMode): LoadMode {
    lhs | rhs
  }

  /** `operator&`: the flags both operands have. */
  function And(lhs: LoadMode, rhs: LoadMode): LoadMode {
    lhs & rhs
  }

  /** The test the differs use, `(int)(flag & mode)` being nonzero. */
  predicate Has(mode: LoadMode, flag: LoadMode) {
    And(flag, mode) != 0
  }

  /** A flag is in the union exactly when it is in one of the operands. */
  lemma OrHasEither(lhs: LoadMode, rhs: LoadMode, flag: LoadMode)
    requires IsFlag(flag)
    ensures Has(Or(lhs, rhs), flag) <==> Has(lhs, flag) || Has(rhs, flag)
  {
    if flag == PERMISSIVE {} else if flag == STRICT {} else if flag == TEXT_STRICT_CASE {} else {}
  }

  /** A flag is in the intersection exactly when it is in both operands. */
  lemma AndHasBoth(lhs: LoadMode, rhs: LoadMode, flag: LoadMode)
    requires IsFlag(flag)
    ensures Has(And(lhs, rhs), flag) <==> Has(lhs, flag) && Has(rhs, flag)
  {
    if flag == PERMISSIVE {} else if flag == STRICT {} else if flag == TEXT_STRICT_CASE {} else {}
  }

  /** `|=` twice with the same flags is the same as once. */
  lemma OrIdempotent(mode: LoadMode, a: LoadMode)
    ensures Or(Or(mode, a), a) == Or(mode, a)
  {
  }

  /** The strict mode `-s` selects has exactly the three strict flags. */
  lemma StrictModeFlags()
    ensures var m := Or(Or(STRICT, TEXT_STRICT_CASE), TEXT_STRICT_WHITESPACE);
      && !Has(m, PERMISSIVE) && Has(m, STRICT) && Has(m, TEXT_STRICT_CASE) && Has(m, TEXT_STRICT_WHITESPACE)
  {
  }
}
