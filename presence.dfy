// Device liveness of src/presence.cpp. HFPresence and OCPresence share
// one class tagged by kind; `now` stands for time(NULL).
module Presence {
  import Text

  /** OCPresence::RETRIES: an OCF device may miss this many periods. */
  const Retries: int := 3

  datatype Kind = HanFun | Ocf

  class Presence {
    const kind: Kind
    /** Presence::id(): the OCF di, or the HAN-FUN address in decimal. */
    const id: string
    const periodSecs: int
    var lastTick: int

    /** HFPresence(address). */
    constructor HF(address: nat, now: int)
      requires address < 65536
      ensures kind == HanFun && id == Text.NatToDecimal(address) && lastTick == now
    {
      kind := HanFun;
      id := Text.NatToDecimal(address);
      periodSecs := 0;
      lastTick := now;
    }

    /** OCPresence(di, period_secs). */
    constructor OC(di: string, period: int, now: int)
      ensures kind == Ocf && id == di && periodSecs == period && lastTick == now
    {
      kind := Ocf;
      id := di;
      periodSecs := period;
      lastTick := now;
    }

    /** A HAN-FUN device is always present; an OCF one while it is within RETRIES periods. */
    predicate IsPresent(now: int)
      reads this
    {
      match kind
      case HanFun => true
      case Ocf => now - lastTick <= periodSecs * Retries
    }

    method Seen(now: int)
      modifies this
      ensures lastTick == now
    {
      lastTick := now;
    }
  }

  /** A freshly built OCPresence is present at its creation time, for any non-negative period. */
  lemma FreshIsPresent(p: Presence, now: int)
    requires p.kind == Ocf && p.periodSecs >= 0 && p.lastTick == now
    ensures p.IsPresent(now)
  {
  }

  /** OCPresence::IsPresent, both directions. */
  lemma OcPresentIff(p: Presence, now: int)
    requires p.kind == Ocf
    ensures p.IsPresent(now) <==> now - p.lastTick <= p.periodSecs * 3
  {
  }

  /** HFPresence::IsPresent ignores the clock and every Seen. */
  lemma HanFunAlwaysPresent(p: Presence, now: int)
    requires p.kind == HanFun
    ensures p.IsPresent(now)
  {
  }

  /** Two HFPresence objects share an id exactly when they share an address. */
  lemma HanFunIdInjective(a: nat, b: nat)
    requires a < 65536 && b < 65536
    ensures Text.NatToDecimal(a) == Text.NatToDecimal(b) <==> a == b
  {
    if Text.NatToDecimal(a) == Text.NatToDecimal(b) {
      Text.DecimalValue(a);
      Text.DecimalValue(b);
    }
  }
}
