/** The wall clock (`Utc::now()`), as a sequence of instants: the `k`-th reading (counting from 0)
    returns `at(k)`. */
module Time {
  import opened Common

  class Clock {
    var ticks: nat
    const at: nat -> Timestamp

    constructor (at: nat -> Timestamp)
      ensures this.at == at && ticks == 0
    {
      this.at := at;
      ticks := 0;
    }

    /** Reads the clock: the next instant of the sequence. */
    method Now() returns (t: Timestamp)
      modifies this`ticks
      ensures t == at(old(ticks)) && ticks == old(ticks) + 1
    {
      t := at(ticks);
      ticks := ticks + 1;
    }
  }
}
