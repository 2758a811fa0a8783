/**
 * Neural channels: weighted, switchable links between two nodes that count
 * the signals they carry. The weight always lies in [0, 1].
 */
module CoreChannel {
  datatype SignalType = DataFlow | ControlFlow | DependencyLink | CallGraph | Bidirectional | Custom(text: string)

  /** `weight.max(0.0).min(1.0)`: the nearest value in [0, 1]. */
  function Clamp(w: real): (r: real)
    ensures 0.0 <= r <= 1.0
    ensures 0.0 <= w <= 1.0 ==> r == w
    ensures w < 0.0 ==> r == 0.0
    ensures w > 1.0 ==> r == 1.0
  {
    var atLeastZero := if w >= 0.0 then w else 0.0;
    if atLeastZero <= 1.0 then atLeastZero else 1.0
  }

  /** Clamping twice is clamping once. */
  lemma ClampIdempotent(w: real)
    ensures Clamp(Clamp(w)) == Clamp(w)
  {
  }

  /** Clamping never moves a value away from [0, 1], and is monotone. */
  lemma ClampMonotone(v: real, w: real)
    requires v <= w
    ensures Clamp(v) <= Clamp(w)
  {
  }

  /** A weight in [0, 1] attenuates a non-negative signal: the result lies between 0 and the signal. */
  lemma Attenuates(strength: real, weight: real)
    requires 0.0 <= weight <= 1.0 && 0.0 <= strength
    ensures 0.0 <= strength * weight <= strength
  {
    assert strength * weight <= strength * 1.0;
  }

  class NeuralChannel {
    const id: string
    const fromNodeId: string
    const toNodeId: string
    const bandwidth: real
    const latencyMs: real
    const signalType: SignalType
    var weight: real
    var signalCount: nat
    var active: bool

    /** The weight stays in [0, 1]. */
    ghost predicate Valid()
      reads this
    {
      0.0 <= weight <= 1.0
    }

    /** `NeuralChannel::new` (the id, a fresh uuid in the source, is passed in): active, weight 1.0, bandwidth 100, latency 1 ms, no signals. */
    constructor (id: string, fromNodeId: string, toNodeId: string, signalType: SignalType)
      ensures this.id == id && this.fromNodeId == fromNodeId && this.toNodeId == toNodeId
      ensures this.signalType == signalType
      ensures weight == 1.0 && bandwidth == 100.0 && latencyMs == 1.0
      ensures signalCount == 0 && active
      ensures Valid()
    {
      this.id := id;
      this.fromNodeId := fromNodeId;
      this.toNodeId := toNodeId;
      this.signalType := signalType;
      weight := 1.0;
      bandwidth := 100.0;
      latencyMs := 1.0;
      signalCount := 0;
      active := true;
    }

    /**
     * `transmit_signal`: an inactive channel passes nothing and counts
     * nothing; an active one counts the signal and passes it scaled by the
     * weight. Weight and activity never change.
     */
    method TransmitSignal(strength: real) returns (out: real)
      modifies this`signalCount
      ensures !active ==> out == 0.0 && signalCount == old(signalCount)
      ensures active ==> out == strength * weight && signalCount == old(signalCount) + 1
      ensures Valid() && 0.0 <= strength ==> 0.0 <= out <= strength
    {
      if !active {
        return 0.0;
      }
      signalCount := signalCount + 1;
      out := strength * weight;
      if Valid() && 0.0 <= strength {
        Attenuates(strength, weight);
        assert 0.0 <= out <= strength;
      }
    }

    /** `set_weight`: store the weight clamped to [0, 1]; a weight already in range is stored as given. */
    method SetWeight(w: real)
      modifies this`weight
      ensures weight == Clamp(w)
      ensures Valid()
      ensures 0.0 <= w <= 1.0 ==> weight == w
    {
      weight := Clamp(w);
    }

    /** `deactivate`: only the activity flag changes. */
    method Deactivate()
      modifies this`active
      ensures !active
    {
      active := false;
    }

    /** `reactivate`: only the activity flag changes. */
    method Reactivate()
      modifies this`active
      ensures active
    {
      active := true;
    }
  }

  /** A deactivated channel passes nothing and counts nothing until it is reactivated; then it counts again. */
  method DeactivatedChannelIsSilent(c: NeuralChannel, strength: real) returns (silent: real, passed: real)
    modifies c
    ensures silent == 0.0
    ensures c.active && c.weight == old(c.weight)
    ensures passed == strength * c.weight
    ensures c.signalCount == old(c.signalCount) + 1
  {
    c.Deactivate();
    c.Deactivate();
    silent := c.TransmitSignal(strength);
    c.Reactivate();
    c.Reactivate();
    passed := c.TransmitSignal(strength);
  }
}
