/** Instruments, directions and per-position notionals (correlation-gate/src/directional.py, models.py). */
module Directional {
  import opened Arith

  /** The currencies the gate recognises, gold included. */
  datatype Currency = USD | EUR | GBP | JPY | CHF | AUD | CAD | NZD | XAU

  datatype Side = Long | Short

  /** An instrument string, read: a pair of recognised currencies, or not one. */
  datatype Instrument = Pair(base: Currency, quote: Currency) | Unrecognised

  /** A direction string, read: exact, exact only after trimming and upper-casing, or not a direction. */
  datatype Direction = Exact(side: Side) | Loose(side: Side) | Unreadable

  const XAU_USD := "XAU_USD"

  /** A held position; its constructor has already insisted on an exact direction and non-negative units. */
  datatype Position = Position(instrument: Instrument, side: Side, units: nat, entryPrice: real)

  datatype Signal = Signal(instrument: Instrument, direction: Direction, units: int)

  function Opposite(s: Side): Side {
    if s == Long then Short else Long
  }

  /** The exposure a position creates on a currency; on a self-pair the quote leg overwrites the base leg. */
  function SideOn(p: Position, c: Currency): Option<Side> {
    if p.instrument.Unrecognised? then None
    else if c == p.instrument.quote then Some(Opposite(p.side))
    else if c == p.instrument.base then Some(p.side)
    else None
  }

  /** `ParseResult.affected_baskets`: base first, a self-pair once. */
  function Affected(instrument: Instrument): seq<Currency> {
    match instrument
    case Unrecognised => []
    case Pair(base, quote) => if base == quote then [base] else [base, quote]
  }

  lemma AffectedAreTouched(p: Position, c: Currency)
    ensures c in Affected(p.instrument) <==> SideOn(p, c).Some?
  {
  }

  /** `calculate_usd_notional`: gold at spot when known, USD base at face value, anything else at entry price. */
  function UsdNotional(p: Position, spot: map<string, real>): real
    requires p.instrument.Pair?
  {
    var units := p.units as real;
    if p.instrument.base == XAU then
      if XAU_USD in spot then units * spot[XAU_USD] else units * p.entryPrice
    else if p.instrument.base == USD then units
    else units * p.entryPrice
  }

  predicate Parses(s: Signal) {
    s.instrument.Pair? && !s.direction.Unreadable?
  }

  /** Signals `to_position` accepts: the position constructor rejects loose directions and negative units. */
  predicate Convertible(s: Signal) {
    s.instrument.Pair? && s.direction.Exact? && s.units >= 0
  }

  type Admissible = s: Signal | Convertible(s) witness Signal(Pair(EUR, USD), Exact(Long), 0)

  /** `to_position` with the projection's placeholder entry price of 1. */
  function AsPosition(s: Admissible): Position {
    Position(s.instrument, s.direction.side, s.units, 1.0)
  }
}
