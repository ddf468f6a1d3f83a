/**
 * The parameters the QFM solver reads once, when it is constructed
 * (`QFM.__init__`): every key missing from the parameter dictionary takes
 * its default, and the extended FFT resolution `MM` is twice the
 * multiplier.
 */
module Config {

  datatype Option<T> = None | Some(value: T)

  /** The parameters after construction; `nfp` is the field period count of the problem. */
  datatype Params = Params(
    ntheta: nat,
    nfftMultiplier: nat,
    pqNtor: nat,
    pqMpol: nat,
    gradientMode: string,
    nfp: int)
  {
    /** `self._MM`. */
    function MM(): nat
    {
      2 * nfftMultiplier
    }
  }

  /** The given value, or the default when the key is missing. */
  function OrDefault<T>(given: Option<T>, default: T): (v: T)
    ensures given.Some? ==> v == given.value
    ensures given.None? ==> v == default
  {
    match given
    case Some(x) => x
    case None => default
  }

  /** Construction: missing keys become 100, 2, 4, 8 and "real". */
  function Init(nfp: int, ntheta: Option<nat>, nfftMultiplier: Option<nat>, pqNtor: Option<nat>,
                pqMpol: Option<nat>, gradientMode: Option<string>): (p: Params)
    ensures p.nfp == nfp
    ensures p.ntheta == (if ntheta.Some? then ntheta.value else 100)
    ensures p.nfftMultiplier == (if nfftMultiplier.Some? then nfftMultiplier.value else 2)
    ensures p.pqNtor == (if pqNtor.Some? then pqNtor.value else 4)
    ensures p.pqMpol == (if pqMpol.Some? then pqMpol.value else 8)
    ensures p.gradientMode == (if gradientMode.Some? then gradientMode.value else "real")
    ensures p.MM() % 2 == 0
  {
    Params(OrDefault(ntheta, 100), OrDefault(nfftMultiplier, 2), OrDefault(pqNtor, 4),
           OrDefault(pqMpol, 8), OrDefault(gradientMode, "real"), nfp)
  }

  /**
   * The parameters the core's array shapes need: at least one FFT
   * multiple and at least one toroidal mode per period.
   */
  predicate Usable(p: Params)
  {
    p.nfftMultiplier >= 1 && p.pqNtor >= 1
  }

  /** A residual mode `action_gradient` knows: "real" or "fourier". */
  predicate KnownMode(p: Params)
  {
    p.gradientMode == "real" || p.gradientMode == "fourier"
  }
}
