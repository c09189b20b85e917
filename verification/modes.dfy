/** The link state an open call grants: read, write, or read-after-write,
    from either an fopen-style mode string or open-style flags. */
module Modes {
  import opened Common

  datatype LinkState = READ | WRITE | RaW

  /** READ < WRITE < RaW: the precedence the parsers apply. */
  function Rank(s: LinkState): nat {
    match s
    case READ => 0
    case WRITE => 1
    case RaW => 2
  }

  /** The link state of an fopen-style mode: any of `r+`, `w+`, `a+` makes it
      read-after-write, else `w` or `a` makes it a write, else a read. */
  function ParseFmode(mode: string): (r: LinkState)
    ensures r == RaW <==> Contains(mode, "r+") || Contains(mode, "w+") || Contains(mode, "a+")
    ensures r == READ <==> !Contains(mode, "w") && !Contains(mode, "a") && r != RaW
  {
    if Contains(mode, "r+") || Contains(mode, "w+") || Contains(mode, "a+") then RaW
    else if Contains(mode, "w") || Contains(mode, "a") then WRITE
    else READ
  }

  /** `O_RDWR` and `O_WRONLY` as Linux defines them. */
  const O_WRONLY: int := 1
  const O_RDWR: int := 2

  /** Bit 0 and bit 1 of `mode`.  Dafny's `/` and `%` are Euclidean, which
      for the positive divisor 2 is the same as flooring, so this agrees with
      Python's `&` on negative integers too. */
  predicate HasWronly(mode: int) {
    mode % 2 == 1
  }

  predicate HasRdwr(mode: int) {
    (mode / 2) % 2 == 1
  }

  /** The link state of open-style flags: an `O_RDWR` bit makes it
      read-after-write, else an `O_WRONLY` bit a write, else a read. */
  function ParseOmode(mode: int): (r: LinkState)
    ensures r == RaW <==> HasRdwr(mode)
    ensures r == WRITE <==> !HasRdwr(mode) && HasWronly(mode)
  {
    if HasRdwr(mode) then RaW
    else if HasWronly(mode) then WRITE
    else READ
  }

  /** Extending a mode string never lowers the link state it grants. */
  lemma {:induction false} FmodeMonotone(s: string, t: string)
    ensures Rank(ParseFmode(s)) <= Rank(ParseFmode(s + t))
  {
    forall sub | sub in ["r+", "w+", "a+", "w", "a"] && Contains(s, sub) ensures Contains(s + t, sub) {
      ContainsExtend(s, t, sub);
    }
  }

  /** Only the two access-mode bits decide the open-style link state: any
      creation or status flag added above them leaves it unchanged. */
  lemma {:induction false} OmodeIgnoresHigherBits(mode: int, q: int)
    ensures ParseOmode(mode + 4 * q) == ParseOmode(mode)
  {
    assert (mode + 4 * q) % 2 == mode % 2;
    assert (mode + 4 * q) / 2 == mode / 2 + 2 * q;
    assert (mode / 2 + 2 * q) % 2 == (mode / 2) % 2;
  }
}
