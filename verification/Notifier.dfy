/** The registry of waiters: which of them each key wakes. */
module Notifier {
  import Text

  const KEY_SEPARATOR := '\U{001E}'

  // ----- the registry as a value

  type Groups<W> = map<string, set<W>>

  function GroupOf<W>(groups: Groups<W>, key: string): set<W> {
    if key in groups then groups[key] else {}
  }

  /** Puts the waiter in the group of each key. */
  function AddTo<W>(groups: Groups<W>, keys: seq<string>, w: W): Groups<W> {
    map key | key in groups.Keys + (set k | k in keys) :: GroupOf(groups, key) + (if key in keys then {w} else {})
  }

  /** Takes the waiter out of the group of each key, and drops the groups that leaves empty. */
  function RemoveFrom<W>(groups: Groups<W>, keys: seq<string>, w: W): Groups<W> {
    map key | key in groups && !(key in keys && groups[key] - {w} == {}) ::
      if key in keys then groups[key] - {w} else groups[key]
  }

  lemma AddToNothing<W>(groups: Groups<W>, w: W)
    ensures AddTo(groups, [], w) == groups
  {
    forall key | key in groups
      ensures AddTo(groups, [], w)[key] == groups[key]
    {
    }
  }

  lemma AddToOneMore<W>(groups: Groups<W>, keys: seq<string>, key: string, w: W)
    ensures AddTo(groups, keys + [key], w)
         == (var before := AddTo(groups, keys, w); before[key := GroupOf(before, key) + {w}])
  {
    var before, after := AddTo(groups, keys, w), AddTo(groups, keys + [key], w);
    forall k | k in after && k != key
      ensures k in before && after[k] == before[k]
    {
    }
    assert after[key] == GroupOf(before, key) + {w};
  }

  lemma RemoveFromOneMore<W>(groups: Groups<W>, keys: seq<string>, key: string, w: W)
    ensures RemoveFrom(groups, keys + [key], w)
         == (var before := RemoveFrom(groups, keys, w);
             if GroupOf(before, key) - {w} == {} then before - {key} else before[key := GroupOf(before, key) - {w}])
  {
    var before, after := RemoveFrom(groups, keys, w), RemoveFrom(groups, keys + [key], w);
    forall k | k != key
      ensures k in after <==> k in before
      ensures k in after ==> after[k] == before[k]
    {
    }
    if key in groups {
      assert groups[key] - {w} - {w} == groups[key] - {w};
    }
  }

  /** Everyone in a group of one of the keys. */
  function Woken<W>(groups: Groups<W>, keys: seq<string>): set<W> {
    set key, w | key in keys && key in groups && w in groups[key] :: w
  }

  /** The keys a message names. */
  function KeysIn(message: string): seq<string> {
    Text.Split(message, KEY_SEPARATOR)
  }

  function MessageFor(keys: seq<string>): string {
    Text.Join(keys, KEY_SEPARATOR)
  }

  // ----- the registry as the server keeps it

  /** A waiter's channel has one slot; `woken` says whether the token is in it. */
  class Waiter {
    const keys: seq<string>
    var woken: bool

    constructor (keys: seq<string>)
      ensures this.keys == keys && !woken
    {
      this.keys := keys;
      woken := false;
    }
  }

  class Notifier {
    var waiters: Groups<Waiter>

    ghost function Members(): set<Waiter>
      reads this
    {
      set key, w | key in waiters && w in waiters[key] :: w
    }

    constructor ()
      ensures waiters == map[]
    {
      waiters := map[];
    }

    method Wait(keys: seq<string>) returns (w: Waiter)
      modifies this
      ensures fresh(w) && w.keys == keys && !w.woken
      ensures waiters == AddTo(old(waiters), keys, w)
    {
      w := new Waiter(keys);
      AddToNothing(waiters, w);
      for i := 0 to |keys|
        invariant !w.woken
        invariant waiters == AddTo(old(waiters), keys[..i], w)
      {
        assert keys[..i + 1] == keys[..i] + [keys[i]];
        AddToOneMore(old(waiters), keys[..i], keys[i], w);
        if keys[i] !in waiters {
          waiters := waiters[keys[i] := {}];
        }
        waiters := waiters[keys[i] := waiters[keys[i]] + {w}];
      }
      assert keys[..|keys|] == keys;
    }

    /** What the function returned by Wait does, at any time and any number of times. */
    method Cancel(w: Waiter)
      modifies this
      ensures waiters == RemoveFrom(old(waiters), w.keys, w)
    {
      var keys := w.keys;
      for i := 0 to |keys|
        invariant waiters == RemoveFrom(old(waiters), keys[..i], w)
      {
        assert keys[..i + 1] == keys[..i] + [keys[i]];
        var key := keys[i];
        RemoveFromOneMore(old(waiters), keys[..i], key, w);
        if key in waiters {
          waiters := waiters[key := waiters[key] - {w}];
          if waiters[key] == {} {
            waiters := waiters - {key};
          }
        }
      }
      assert keys[..|keys|] == keys;
    }

    /** Fills the slot of everyone the message names; a slot that is full stays so. */
    method Deliver(message: string)
      modifies Members()`woken
      ensures forall w | w in Members() :: w.woken <==> old(w.woken) || w in Woken(waiters, KeysIn(message))
    {
      var keys := KeysIn(message);
      for i := 0 to |keys|
        invariant forall w | w in Members() :: w.woken <==> old(w.woken) || w in Woken(waiters, keys[..i])
        modifies Members()`woken
      {
        assert keys[..i + 1] == keys[..i] + [keys[i]];
        label before:
        var group := GroupOf(waiters, keys[i]);
        var rest := group;
        while rest != {}
          invariant rest <= group
          invariant forall w | w in Members() :: w.woken <==> old@before(w.woken) || (w in group && w !in rest)
          modifies Members()`woken
          decreases rest
        {
          var w :| w in rest;
          rest := rest - {w};
          if !w.woken {
            w.woken := true;
          }
        }
        assert forall w :: w in Woken(waiters, keys[..i + 1]) <==> w in Woken(waiters, keys[..i]) || w in group;
      }
      assert keys[..|keys|] == keys;
    }

    /** The local half of Notify; publishing on the bus comes back as further deliveries. */
    method Notify(keys: seq<string>)
      modifies Members()`woken
      ensures forall w | w in Members() ::
                w.woken <==> old(w.woken) || (keys != [] && w in Woken(waiters, KeysIn(MessageFor(keys))))
    {
      if keys == [] {
        return;
      }
      Deliver(MessageFor(keys));
    }

    method Watching() returns (count: nat)
      ensures count == |waiters|
    {
      count := |waiters|;
    }

    method Waiters() returns (count: nat)
      ensures count == |Members()|
    {
      var seen: set<Waiter> := {};
      var rest := waiters.Keys;
      while rest != {}
        invariant rest <= waiters.Keys
        invariant seen == set key, w | key in waiters && key !in rest && w in waiters[key] :: w
        decreases rest
      {
        var key :| key in rest;
        rest := rest - {key};
        seen := seen + waiters[key];
      }
      assert seen == Members();
      count := |seen|;
    }
  }
}
