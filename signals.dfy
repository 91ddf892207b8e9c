/**
 * The signal registry of ed247_signal.cpp: every signal of a context,
 * keyed by its unique name.
 */
module Signals {

  /** `ed247::Signal`: the configuration it was built from and the stream that carries it. */
  class Signal {
    const name: string
    const stream: nat

    constructor(name: string, stream: nat)
      ensures this.name == name && this.stream == stream
    {
      this.name := name;
      this.stream := stream;
    }
  }

  /** A registry grows by one entry for each new name. */
  lemma InsertGrows(signals: map<string, Signal>, name: string, s: Signal)
    requires name !in signals
    ensures |signals[name := s]| == |signals| + 1
  {
    assert signals[name := s].Keys == signals.Keys + {name};
  }

  /** `SignalSet`: the signals by name; every signal is registered under its own name. */
  class SignalSet {
    var signals: map<string, Signal>

    ghost predicate Valid()
      reads this, signals.Values
    {
      forall n | n in signals :: signals[n].name == n
    }

    constructor()
      ensures Valid() && signals == map[]
    {
      signals := map[];
    }

    /**
     * `create`: a new signal registered under its name and returned; a
     * name already registered raises, here answers null, and keeps the
     * signal registered first.
     */
    method Create(name: string, stream: nat) returns (s: Signal?)
      requires Valid()
      modifies this
      ensures Valid()
      ensures s == null <==> name in old(signals)
      ensures s == null ==> signals == old(signals)
      ensures s != null ==> fresh(s) && s.name == name && s.stream == stream && signals == old(signals)[name := s]
      ensures s != null ==> |signals| == |old(signals)| + 1
    {
      var signal := new Signal(name, stream);
      if name in signals {
        return null;
      }
      InsertGrows(signals, name, signal);
      signals := signals[name := signal];
      s := signal;
    }

    /** `get`: the signal registered under `name`, null when there is none. */
    method Get(name: string) returns (s: Signal?)
      requires Valid()
      ensures s != null <==> name in signals
      ensures s != null ==> s == signals[name] && s.name == name
    {
      s := if name in signals then signals[name] else null;
    }
  }
}
