/**
  The static registrar of LOD data inputs: for each LOD data manager type, the
  list of input components currently registered against it. Components register
  when enabled and unregister when disabled.

  `K` stands for the LOD data manager type used as the dictionary key and `I`
  for an input component, compared by identity.
 */
module LodInputRegistrar {

  type Registrar<K, I> = map<K, seq<I>>

  /** The registrar after static initialisation: no type has a list yet. */
  function InitStatics<K, I>(): (reg: Registrar<K, I>)
    ensures |reg| == 0
  {
    map[]
  }

  /**
    Get-or-create: returns the list registered for `key`, first inserting an empty
    list when `key` has none. The first component is the registrar afterwards.
   */
  function GetRegistrar<K(!new), I(==)>(reg: Registrar<K, I>, key: K): (r: (Registrar<K, I>, seq<I>))
    ensures key in r.0 && r.0[key] == r.1
    ensures key in reg ==> r.0 == reg && r.1 == reg[key]
    ensures key !in reg ==> r.1 == [] && r.0.Keys == reg.Keys + {key}
    ensures forall k :: k != key ==> (k in r.0 <==> k in reg)
    ensures forall k :: k != key && k in reg ==> r.0[k] == reg[k]
  {
    if key in reg then (reg, reg[key]) else (reg[key := []], [])
  }

  /** Position of the first element equal to `x`. */
  function IndexOf<I(==)>(s: seq<I>, x: I): (i: nat)
    requires x in s
    ensures i < |s| && s[i] == x && x !in s[..i]
  {
    if s[0] == x then 0
    else
      var i := 1 + IndexOf(s[1..], x);
      assert s[..i] == [s[0]] + s[1..][..i - 1];
      i
  }

  /** `List.Remove`: drops the first element equal to `x`, if there is one. */
  function RemoveFirst<I(==)>(s: seq<I>, x: I): (r: seq<I>)
    ensures x !in s ==> r == s
    ensures x in s ==> r == s[..IndexOf(s, x)] + s[IndexOf(s, x) + 1..]
  {
    if |s| == 0 then []
    else if s[0] == x then s[1..]
    else
      var rest := RemoveFirst(s[1..], x);
      assert x in s ==> [s[0]] + rest == s[..IndexOf(s, x)] + s[IndexOf(s, x) + 1..] by {
        if x in s {
          var i := IndexOf(s[1..], x);
          assert IndexOf(s, x) == i + 1;
          assert s[..i + 1] == [s[0]] + s[1..][..i];
          assert s[i + 2..] == s[1..][i + 1..];
        }
      }
      [s[0]] + rest
  }

  /** Removing the first occurrence takes exactly one copy of `x` out of the multiset. */
  lemma {:induction false} RemoveFirstMultiset<I>(s: seq<I>, x: I)
    ensures multiset(RemoveFirst(s, x)) == multiset(s) - multiset{x}
  {
    if |s| > 0 {
      assert s == [s[0]] + s[1..];
      if s[0] != x {
        RemoveFirstMultiset(s[1..], x);
        assert RemoveFirst(s, x) == [s[0]] + RemoveFirst(s[1..], x);
      }
    }
  }

  /** `OnEnable`: appends the input to the end of its type's list. */
  function OnEnable<K(!new), I(==)>(reg: Registrar<K, I>, key: K, input: I): (reg': Registrar<K, I>)
    ensures key in reg' && reg'[key] == Lookup(reg, key) + [input]
    ensures reg'.Keys == reg.Keys + {key}
    ensures forall k :: k != key && k in reg ==> reg'[k] == reg[k]
  {
    var (created, registered) := GetRegistrar(reg, key);
    created[key := registered + [input]]
  }

  /**
    `OnDisable`: removes the first occurrence of the input from its type's list.
    The list is fetched through `GetRegistrar`, so an absent type ends up with an
    empty list.
   */
  function OnDisable<K(!new), I(==)>(reg: Registrar<K, I>, key: K, input: I): (reg': Registrar<K, I>)
    ensures key in reg' && reg'[key] == RemoveFirst(Lookup(reg, key), input)
    ensures input !in Lookup(reg, key) ==> reg'[key] == Lookup(reg, key)
    ensures key !in reg ==> reg'[key] == []
    ensures reg'.Keys == reg.Keys + {key}
    ensures forall k :: k != key && k in reg ==> reg'[k] == reg[k]
  {
    var (created, registered) := GetRegistrar(reg, key);
    created[key := RemoveFirst(registered, input)]
  }

  /** The list registered for `key`, the empty list when there is none. */
  function Lookup<K(!new), I(==)>(reg: Registrar<K, I>, key: K): seq<I>
  {
    if key in reg then reg[key] else []
  }

  // ---------------------------------------------------------------------------
  // Properties

  /** Removing an element just appended, when it was not there before, gives the list back. */
  lemma RemoveFirstOfAppended<I>(s: seq<I>, x: I)
    requires x !in s
    ensures RemoveFirst(s + [x], x) == s
  {
  }

  /**
    Enabling and then disabling an input that was not registered restores its
    type's list, and the registrar equals the one `GetRegistrar` would leave.
   */
  lemma EnableThenDisableRestores<K(!new), I>(reg: Registrar<K, I>, key: K, input: I)
    requires input !in Lookup(reg, key)
    ensures OnDisable(OnEnable(reg, key, input), key, input) == GetRegistrar(reg, key).0
    ensures OnDisable(OnEnable(reg, key, input), key, input)[key] == Lookup(reg, key)
  {
    RemoveFirstOfAppended(Lookup(reg, key), input);
  }

  /**
    The registrar agrees with the set of enabled inputs: for every type, its list
    holds each enabled input of that type exactly once and nothing else.
   */
  ghost predicate Consistent<K(!new), I(!new)>(reg: Registrar<K, I>, enabled: set<I>, typeOf: I -> K)
  {
    forall k, i :: multiset(Lookup(reg, k))[i] == if i in enabled && typeOf(i) == k then 1 else 0
  }

  /** The freshly initialised registrar agrees with "nothing enabled". */
  lemma InitStaticsConsistent<K(!new), I(!new)>(typeOf: I -> K)
    ensures Consistent(InitStatics<K, I>(), {}, typeOf)
  {
  }

  /** Enabling a disabled component keeps the registrar consistent. */
  lemma EnablePreservesConsistency<K(!new), I(!new)>(reg: Registrar<K, I>, enabled: set<I>, typeOf: I -> K, input: I)
    requires Consistent(reg, enabled, typeOf)
    requires input !in enabled
    ensures Consistent(OnEnable(reg, typeOf(input), input), enabled + {input}, typeOf)
  {
    var key := typeOf(input);
    var reg' := OnEnable(reg, key, input);
    assert multiset(Lookup(reg', key)) == multiset(Lookup(reg, key)) + multiset{input};
    forall k | k != key
      ensures Lookup(reg', k) == Lookup(reg, k)
    {
    }
  }

  /** Disabling an enabled component keeps the registrar consistent. */
  lemma DisablePreservesConsistency<K(!new), I(!new)>(reg: Registrar<K, I>, enabled: set<I>, typeOf: I -> K, input: I)
    requires Consistent(reg, enabled, typeOf)
    requires input in enabled
    ensures Consistent(OnDisable(reg, typeOf(input), input), enabled - {input}, typeOf)
  {
    var key := typeOf(input);
    var reg' := OnDisable(reg, key, input);
    RemoveFirstMultiset(Lookup(reg, key), input);
    forall k, i
      ensures multiset(Lookup(reg', k))[i] == if i in enabled - {input} && typeOf(i) == k then 1 else 0
    {
      assert multiset(Lookup(reg, k))[i] == if i in enabled && typeOf(i) == k then 1 else 0;
      if k != key {
        assert Lookup(reg', k) == Lookup(reg, k);
      }
    }
  }
}
