/** The environment of the driver: an arbitrary function decides, for every file effect and every
    command in turn, whether it works, raises, or is where the process stops. What is proved for every
    such function holds after a crash or an exception between any two effects.
 */
module Faults {
  import opened Outcomes

  type Byte = b: int | 0 <= b < 256
  type Data = seq<Byte>

  /** `torn` is what an interrupted copy leaves behind. */
  datatype Fate = Works | Raises(torn: Data) | Crashes(torn: Data) {
    function Outcome(): Outcome {
      match this
      case Works => Done
      case Raises(_) => Raised
      case Crashes(_) => Crashed
    }

    /** Any bytes, but no more of them than there were to write. */
    function Torn(n: nat): (d: Data)
      ensures |d| <= n
    {
      if Works? then [] else if |torn| <= n then torn else torn[..n]
    }
  }

  /** An interrupted copy may leave any bytes, up to as many as there were to copy. */
  lemma TornIsArbitrary(n: nat, d: Data)
    requires |d| <= n
    ensures (exists f: Fate :: f.Raises? && f.Torn(n) == d) && (exists f: Fate :: f.Crashes? && f.Torn(n) == d)
  {
    assert Raises(d).Torn(n) == d && Crashes(d).Torn(n) == d;
  }

  class Env {
    const fate: nat -> Fate
    var tick: nat

    constructor (fate: nat -> Fate)
      ensures this.fate == fate && tick == 0
    {
      this.fate := fate;
      tick := 0;
    }

    /** Nothing ever fails. */
    ghost predicate Healthy() {
      forall n: nat :: fate(n).Works?
    }

    /** Commands and effects may be cut short by crashes, but none fails. */
    ghost predicate NeverRaises() {
      forall n: nat :: !fate(n).Raises?
    }

    method Draw() returns (f: Fate)
      modifies this
      ensures f == fate(old(tick)) && tick == old(tick) + 1
      ensures Healthy() ==> f.Works?
    {
      f := fate(tick);
      tick := tick + 1;
    }

    /** Like `Act`, for callers that keep count of the effects. */
    method Try() returns (o: Outcome)
      modifies this
      ensures o == fate(old(tick)).Outcome() && tick == old(tick) + 1
    {
      var f := Draw();
      o := f.Outcome();
    }

    /** Ask whether the next effect happens: `:- env.Act(); effect`. */
    method Act() returns (o: Outcome)
      modifies this
      ensures Healthy() ==> o.Done?
    {
      var f := Draw();
      o := f.Outcome();
    }
  }
}
