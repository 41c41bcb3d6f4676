/** contracts/V1/StateChannelDiamondProxy/StateChannelUtilLibrary.sol */
module StateChannelUtilLibrary {
  import opened Types

  predicate Recoverable(env: Env, hash: Hash, signatures: seq<Signature>) {
    forall i :: 0 <= i < |signatures| ==> env.recover(hash, signatures[i]).Some?
  }

  /** Who signed the hash, signature by signature. */
  function Recovered(env: Env, hash: Hash, signatures: seq<Signature>): seq<Address>
    requires Recoverable(env, hash, signatures)
  {
    if signatures == [] then []
    else
      var last := |signatures| - 1;
      Recovered(env, hash, signatures[..last]) + [env.recover(hash, signatures[last]).value]
  }

  /** The verdict in order-free terms: too few signatures are refused unread; otherwise an
      unrecoverable signature reverts; otherwise the required addresses must be contained, with
      multiplicity, in the addresses that signed. */
  function ThresholdSigned(env: Env, required: seq<Address>, hash: Hash, signatures: seq<Signature>): Outcome<bool> {
    if |required| > |signatures| then Ok(false)
    else if !Recoverable(env, hash, signatures) then Revert
    else Ok(multiset(required) <= multiset(Recovered(env, hash, signatures)))
  }

  /** The addresses whose slot has not been used yet, and how many there are. */
  ghost function Open(addresses: seq<Address>, remaining: seq<nat>): multiset<Address>
    requires |addresses| == |remaining|
  {
    if addresses == [] then multiset{}
    else
      var last := |addresses| - 1;
      Open(addresses[..last], remaining[..last])
      + (if remaining[last] == 1 then multiset{addresses[last]} else multiset{})
  }

  ghost function OpenCount(remaining: seq<nat>): nat {
    if remaining == [] then 0
    else
      var last := |remaining| - 1;
      OpenCount(remaining[..last]) + (if remaining[last] == 1 then 1 else 0)
  }

  lemma {:induction false} OpenAll(addresses: seq<Address>, remaining: seq<nat>)
    requires |addresses| == |remaining|
    requires forall i :: 0 <= i < |remaining| ==> remaining[i] == 1
    ensures Open(addresses, remaining) == multiset(addresses) && OpenCount(remaining) == |addresses|
  {
    if addresses != [] {
      var last := |addresses| - 1;
      OpenAll(addresses[..last], remaining[..last]);
      assert addresses == addresses[..last] + [addresses[last]];
    }
  }

  lemma {:induction false} OpenNone(addresses: seq<Address>, remaining: seq<nat>)
    requires |addresses| == |remaining|
    ensures OpenCount(remaining) == 0 <==> Open(addresses, remaining) == multiset{}
  {
    if addresses != [] {
      var last := |addresses| - 1;
      OpenNone(addresses[..last], remaining[..last]);
      assert remaining[last] == 1 ==> addresses[last] in Open(addresses, remaining);
    }
  }

  lemma {:induction false} OpenMembers(addresses: seq<Address>, remaining: seq<nat>, a: Address)
    requires |addresses| == |remaining|
    ensures a in Open(addresses, remaining) <==>
            exists i :: 0 <= i < |addresses| && addresses[i] == a && remaining[i] == 1
  {
    if addresses != [] {
      var last := |addresses| - 1;
      OpenMembers(addresses[..last], remaining[..last], a);
      if i :| 0 <= i < |addresses| && addresses[i] == a && remaining[i] == 1 {
        if i < last { assert addresses[..last][i] == a && remaining[..last][i] == 1; }
      }
    }
  }

  lemma {:induction false} OpenUse(addresses: seq<Address>, remaining: seq<nat>, i: nat)
    requires |addresses| == |remaining| && i < |addresses| && remaining[i] == 1
    ensures Open(addresses, remaining[i := 0]) == Open(addresses, remaining) - multiset{addresses[i]}
    ensures OpenCount(remaining[i := 0]) == OpenCount(remaining) - 1
    ensures addresses[i] in Open(addresses, remaining)
  {
    var last := |addresses| - 1;
    if i < last {
      OpenUse(addresses[..last], remaining[..last], i);
      assert remaining[i := 0][..last] == remaining[..last][i := 0];
    } else {
      assert remaining[i := 0][..last] == remaining[..last];
    }
  }

  method UseSlot(ghost required: seq<Address>, remaining: array<nat>, i: nat)
    requires |required| == remaining.Length && i < remaining.Length && remaining[i] == 1
    modifies remaining
    ensures Open(required, remaining[..]) == old(Open(required, remaining[..])) - multiset{required[i]}
    ensures OpenCount(remaining[..]) == old(OpenCount(remaining[..])) - 1
  {
    OpenUse(required, remaining[..], i);
    remaining[i] := 0;
    assert remaining[..] == old(remaining[..])[i := 0];
  }

  /** One step of the counting loop: consume a free slot of `signer`, if there is one. */
  method CountSigner(required: seq<Address>, remaining: array<nat>, i: nat, signer: Address)
    returns (counted: nat)
    requires |required| == remaining.Length
    modifies remaining
    ensures Open(required, remaining[..]) == old(Open(required, remaining[..])) - multiset{signer}
    ensures counted + OpenCount(remaining[..]) == old(OpenCount(remaining[..]))
  {
    OpenMembers(required, remaining[..], signer);
    if i < |required| && signer == required[i] && remaining[i] == 1 {
      UseSlot(required, remaining, i);
      return 1;
    }
    for j := 0 to |required|
      invariant forall k :: 0 <= k < j ==> !(signer == required[k] && remaining[k] == 1)
      invariant remaining[..] == old(remaining[..])
    {
      if signer == required[j] && remaining[j] == 1 {
        UseSlot(required, remaining, j);
        return 1;
      }
    }
    return 0;
  }

  method FreshSlots(threshold: nat) returns (slots: array<nat>)
    ensures fresh(slots) && slots.Length == threshold && forall i :: 0 <= i < threshold ==> slots[i] == 1
  {
    slots := new nat[threshold];
    for i := 0 to threshold
      invariant forall k :: 0 <= k < i ==> slots[k] == 1
    {
      slots[i] := 1;
    }
  }

  lemma RecoveredStep(env: Env, hash: Hash, signatures: seq<Signature>, i: nat)
    requires i < |signatures| && Recoverable(env, hash, signatures[..i]) && env.recover(hash, signatures[i]).Some?
    ensures Recoverable(env, hash, signatures[..i + 1])
    ensures multiset(Recovered(env, hash, signatures[..i + 1])) ==
            multiset(Recovered(env, hash, signatures[..i])) + multiset{env.recover(hash, signatures[i]).value}
  {
    assert signatures[..i + 1][..i] == signatures[..i];
  }

  lemma DifferenceStep(need: multiset<Address>, seen: multiset<Address>, signer: Address)
    ensures need - seen - multiset{signer} == need - (seen + multiset{signer})
  {}

  /** Lines 11-63: one slot per required address, a positional guess first, then a search. */
  method VerifyThresholdSigned(env: Env, required: seq<Address>, hash: Hash, signatures: seq<Signature>)
    returns (r: Outcome<bool>)
    ensures r == ThresholdSigned(env, required, hash, signatures)
  {
    if |required| > |signatures| { return Ok(false); }
    var threshold := |required|;
    var count := 0;
    var countRemaining := FreshSlots(threshold);
    OpenAll(required, countRemaining[..]);
    ghost var need, missing, seen: multiset<Address> := multiset(required), multiset(required), multiset{};
    for i := 0 to |signatures|
      invariant Recoverable(env, hash, signatures[..i])
      invariant seen == multiset(Recovered(env, hash, signatures[..i]))
      invariant missing == Open(required, countRemaining[..]) && missing == need - seen
      invariant count + OpenCount(countRemaining[..]) == threshold
    {
      var recovered := env.recover(hash, signatures[i]);
      if recovered.None? { return Revert; }
      var counted := CountSigner(required, countRemaining, i, recovered.value);
      count := count + counted;
      RecoveredStep(env, hash, signatures, i);
      DifferenceStep(need, seen, recovered.value);
      missing, seen := missing - multiset{recovered.value}, seen + multiset{recovered.value};
    }
    assert signatures[..|signatures|] == signatures;
    OpenNone(required, countRemaining[..]);
    assert missing == multiset{} <==> need <= seen;
    return Ok(count == threshold);
  }

  method IsAddressInArray(addresses: seq<Address>, adr: Address) returns (found: bool)
    ensures found <==> adr in addresses
  {
    for i := 0 to |addresses|
      invariant adr !in addresses[..i]
    {
      if addresses[i] == adr { return true; }
    }
    return false;
  }

  /** Lines 90-111: `set[..length]` is a duplicate-free list of expected addresses; `adr` is appended
      when it is expected and not yet there. The write is in bounds because the prefix is then a
      proper subset of the expected addresses. */
  method TryInsertAddressInThresholdSet(adr: Address, set_: array<Address>, length: nat, expected: seq<Address>)
    returns (newLength: nat)
    requires set_.Length == |expected| && length <= set_.Length
    requires Distinct(set_[..length]) && SetOf(set_[..length]) <= SetOf(expected)
    modifies set_
    ensures length <= newLength <= set_.Length && set_[..length] == old(set_[..length])
    ensures Distinct(set_[..newLength])
    ensures SetOf(set_[..newLength]) == old(SetOf(set_[..length])) + (if adr in expected then {adr} else {})
  {
    var found := IsAddressInArray(expected, adr);
    if !found { return length; }
    for i := 0 to length
      invariant adr !in set_[..i]
    {
      if set_[i] == adr {
        assert adr in set_[..length];
        return length;
      }
    }
    RoomForOneMore(set_[..length], expected, adr);
    set_[length] := adr;
    assert set_[..length + 1] == old(set_[..length]) + [adr];
    return length + 1;
  }

  lemma RoomForOneMore(inserted: seq<Address>, expected: seq<Address>, adr: Address)
    requires Distinct(inserted) && SetOf(inserted) <= SetOf(expected)
    requires adr in expected && adr !in inserted
    ensures |inserted| < |expected|
  {
    DistinctCardinality(inserted);
    SetOfBound(expected);
    SubsetCardinality(SetOf(inserted) + {adr}, SetOf(expected));
  }
}
