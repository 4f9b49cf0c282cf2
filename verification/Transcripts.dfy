/** Public-coin transcripts and random oracles: what was absorbed and where a challenge
    was taken is logged, and a challenge is an arbitrary function of the log. */
module Transcripts {
  import opened PrimeField

  datatype Event<+M> = Said(m: M) | Squeezed

  type Log<+M> = seq<Event<M>>

  type Oracle<!M> = Log<M> -> Fe

  class Transcript<!M> {
    const oracle: Oracle<M>
    var log: Log<M>

    constructor (oracle: Oracle<M>)
      ensures this.oracle == oracle && log == []
    {
      this.oracle := oracle;
      log := [];
    }

    method Absorb(m: M)
      modifies this
      ensures log == old(log) + [Said(m)]
    {
      log := log + [Said(m)];
    }

    method Squeeze() returns (c: Fe)
      modifies this
      ensures c == oracle(old(log)) && log == old(log) + [Squeezed]
    {
      c := oracle(log);
      log := log + [Squeezed];
    }
  }
}
