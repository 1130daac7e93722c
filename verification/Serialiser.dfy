/** The table of reference-counted gates, one per key in use. */
module Serialiser {

  // ----- the table as a value

  datatype Entry<G> = Entry(gate: G, refs: int)

  type Table<G> = map<string, Entry<G>>

  /** Taking a reference to the key's gate, putting a fresh one in the table if it has none. */
  function AcquireIn<G>(table: Table<G>, key: string, created: G): Table<G> {
    if key in table then table[key := Entry(table[key].gate, table[key].refs + 1)]
    else table[key := Entry(created, 1)]
  }

  /** Giving a reference back; the last one takes the gate out of the table. */
  function ForgetIn<G>(table: Table<G>, key: string): Table<G> {
    if key !in table then table
    else if table[key].refs - 1 == 0 then table - {key}
    else table[key := Entry(table[key].gate, table[key].refs - 1)]
  }

  // ----- the table as the server keeps it

  /** A one-slot channel: holding its token is holding the gate. */
  class Channel {
    var full: bool

    constructor ()
      ensures !full
    {
      full := false;
    }
  }

  class Gate {
    const ch: Channel
    var refs: int

    constructor ()
      ensures refs == 0 && fresh(ch) && !ch.full
    {
      ch := new Channel();
      refs := 0;
    }
  }

  class Serialiser {
    var gates: map<string, Gate>

    ghost predicate Valid()
      reads this
    {
      forall k, l | k in gates && l in gates :: gates[k] == gates[l] || gates[k].ch == gates[l].ch ==> k == l
    }

    ghost function Contents(): Table<Channel>
      reads this, gates.Values
    {
      map key | key in gates :: Entry(gates[key].ch, gates[key].refs)
    }

    constructor ()
      ensures Valid() && Contents() == map[]
    {
      gates := map[];
    }

    method Acquire(key: string) returns (ch: Channel)
      requires Valid()
      modifies this, gates.Values
      ensures Valid() && fresh(gates.Values - old(gates.Values))
      ensures Contents() == AcquireIn(old(Contents()), key, ch)
      ensures key in old(gates) ==> ch == old(Contents())[key].gate
      ensures key !in old(gates) ==> fresh(ch) && !ch.full
    {
      var g: Gate;
      if key in gates {
        g := gates[key];
      } else {
        g := new Gate();
        gates := gates[key := g];
      }
      g.refs := g.refs + 1;
      ch := g.ch;
    }

    method Forget(key: string)
      requires Valid()
      modifies this, gates.Values
      ensures Valid() && gates.Values <= old(gates.Values)
      ensures Contents() == ForgetIn(old(Contents()), key)
    {
      if key !in gates {
        return;
      }
      var g := gates[key];
      g.refs := g.refs - 1;
      if g.refs == 0 {
        gates := gates - {key};
      }
    }
  }
}
