/** The resample generator the bootstrap draws from. Its randomness is not
    modelled: `source(d)` stands for whatever the `d`-th call of `next()` on
    a freshly created generator yields, and the generator only counts draws. */
module Resampling {

  class Resamples<R> {
    /** The resample produced by each successive draw. */
    const source: nat -> R
    /** How many resamples have been drawn so far. */
    var drawn: nat

    constructor (source: nat -> R)
      ensures this.source == source && drawn == 0
    {
      this.source := source;
      drawn := 0;
    }

    /** Produces the next resample. */
    method Next() returns (r: R)
      modifies this
      ensures drawn == old(drawn) + 1
      ensures r == source(old(drawn))
    {
      r := source(drawn);
      drawn := drawn + 1;
    }
  }
}
