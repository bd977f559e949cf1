/** A doubly linked list of payloads with a head and a tail pointer, relinked in place. */
module ChainLedger {
  import opened Sequences

  datatype Code = NormalState | VoidState | AllocFault

  const SIZE_RANGE := 0x1_0000_0000_0000_0000

  /** The first position whose payload the comparison accepts, or the length. */
  function FirstMatch<T>(s: seq<T>, target: T, eval: (T, T) -> int): (k: nat)
    ensures k <= |s|
    ensures forall i | 0 <= i < k :: eval(s[i], target) != 0
    ensures k < |s| ==> eval(s[k], target) == 0
  {
    if s == [] then 0 else if eval(s[0], target) == 0 then 0 else 1 + FirstMatch(s[1..], target, eval)
  }

  function RemoveAt<T>(s: seq<T>, k: nat): seq<T>
    requires k < |s|
  {
    s[..k] + s[k + 1..]
  }

  lemma RemoveAtIndex<T>(s: seq<T>, k: nat)
    requires k < |s|
    ensures |RemoveAt(s, k)| == |s| - 1
    ensures forall i | 0 <= i < |s| - 1 :: RemoveAt(s, k)[i] == if i < k then s[i] else s[i + 1]
  {
  }

  class LinkUnit<T> {
    var predecessorLink: LinkUnit?<T>
    var payloadData: T
    var successorLink: LinkUnit?<T>

    constructor (payload: T)
      ensures payloadData == payload && predecessorLink == null && successorLink == null
    {
      payloadData, predecessorLink, successorLink := payload, null, null;
    }
  }

  class ChainLedger<T> {
    var headNode: LinkUnit?<T>
    var tailNode: LinkUnit?<T>
    ghost var nodes: seq<LinkUnit<T>>

    ghost predicate Valid()
      reads this, nodes
    {
      && (forall i, j | 0 <= i < j < |nodes| :: nodes[i] != nodes[j])
      && headNode == (if nodes == [] then null else nodes[0])
      && tailNode == (if nodes == [] then null else nodes[|nodes| - 1])
      && (forall i {:trigger nodes[i].predecessorLink} | 0 <= i < |nodes| ::
            nodes[i].predecessorLink == if i == 0 then null else nodes[i - 1])
      && (forall i {:trigger nodes[i].successorLink} | 0 <= i < |nodes| ::
            nodes[i].successorLink == if i == |nodes| - 1 then null else nodes[i + 1])
    }

    ghost function Contents(): seq<T>
      reads this, nodes
    {
      seq(|nodes|, i requires 0 <= i < |nodes| reads this, nodes => nodes[i].payloadData)
    }

    /** bootstrap_chain_ledger */
    constructor ()
      ensures Valid() && nodes == [] && Contents() == []
    {
      headNode, tailNode, nodes := null, null, [];
    }

    method PushToChain(payload: T, allocOk: bool) returns (code: Code)
      requires Valid()
      modifies this, nodes
      ensures Valid() && code == (if allocOk then NormalState else AllocFault)
      ensures Contents() == if allocOk then old(Contents()) + [payload] else old(Contents())
      ensures nodes == old(nodes) ||
              (|nodes| == |old(nodes)| + 1 && nodes[..|old(nodes)|] == old(nodes) && fresh(nodes[|old(nodes)|]))
    {
      if !allocOk {
        return AllocFault;
      }
      var freshLink := new LinkUnit(payload);
      if headNode != null {
        freshLink.predecessorLink := tailNode;
        tailNode.successorLink := freshLink;
        tailNode := freshLink;
      } else {
        tailNode := freshLink;
        headNode := freshLink;
      }
      nodes := nodes + [freshLink];
      return NormalState;
    }

    /** Around a gap that has been bridged, and with the ends set, the rest of the chain is in order. */
    lemma Relinked(was: seq<LinkUnit<T>>, k: nat)
      requires k < |was| && nodes == RemoveAt(was, k)
      requires forall i, j | 0 <= i < j < |was| :: was[i] != was[j]
      requires forall i {:trigger was[i].predecessorLink} | 0 <= i < |was| && i != k && i != k + 1 ::
        was[i].predecessorLink == if i == 0 then null else was[i - 1]
      requires k + 1 < |was| ==> was[k + 1].predecessorLink == if k == 0 then null else was[k - 1]
      requires forall i {:trigger was[i].successorLink} | 0 <= i < |was| && i != k && i + 1 != k ::
        was[i].successorLink == if i == |was| - 1 then null else was[i + 1]
      requires k > 0 ==> was[k - 1].successorLink == if k == |was| - 1 then null else was[k + 1]
      requires headNode == if k > 0 then was[0] else if |was| > 1 then was[1] else null
      requires tailNode == if k < |was| - 1 then was[|was| - 1] else if k > 0 then was[k - 1] else null
      ensures Valid()
    {
      RemoveAtIndex(was, k);
      forall i | 0 <= i < |nodes|
        ensures nodes[i].predecessorLink == if i == 0 then null else nodes[i - 1]
        ensures nodes[i].successorLink == if i == |nodes| - 1 then null else nodes[i + 1]
      {
        var j := if i < k then i else i + 1;
        assert nodes[i] == was[j];
      }
    }

    /** Takes the unit at position `k` out of the chain: the same relinking at head, tail, middle and
        for a single unit. */
    method Unlink(unit: LinkUnit<T>, ghost k: nat)
      requires Valid() && k < |nodes| && nodes[k] == unit
      modifies this, nodes
      ensures Valid() && nodes == RemoveAt(old(nodes), k)
      ensures Contents() == RemoveAt(old(Contents()), k)
    {
      assert unit.predecessorLink == (if k == 0 then null else nodes[k - 1])
          && unit.successorLink == (if k == |nodes| - 1 then null else nodes[k + 1]);
      if unit.predecessorLink == null {
        headNode := unit.successorLink;
      } else {
        unit.predecessorLink.successorLink := unit.successorLink;
      }
      if unit.successorLink == null {
        tailNode := unit.predecessorLink;
      } else {
        unit.successorLink.predecessorLink := unit.predecessorLink;
      }
      ghost var was := nodes;
      nodes := RemoveAt(nodes, k);
      RemoveAtIndex(was, k);
      Relinked(was, k);
      assert Contents() == RemoveAt(old(Contents()), k);
    }

    method PopFromChain(receiver: T) returns (code: Code, received: T)
      requires Valid()
      modifies this, nodes
      ensures Valid()
      ensures code == if old(Contents()) == [] then VoidState else NormalState
      ensures code == NormalState ==> received == old(Contents())[0] && Contents() == old(Contents())[1..]
      ensures code == NormalState ==> nodes == old(nodes)[1..]
      ensures code == VoidState ==> received == receiver && Contents() == [] && nodes == old(nodes)
    {
      if headNode != null && tailNode != null {
        var target := headNode;
        received := target.payloadData;
        headNode := headNode.successorLink;
        if headNode == null {
          tailNode := null;
        } else {
          headNode.predecessorLink := null;
        }
        nodes := nodes[1..];
        return NormalState, received;
      }
      return VoidState, receiver;
    }

    method PeekChain(receiver: T) returns (code: Code, received: T)
      requires Valid()
      ensures code == if Contents() == [] then VoidState else NormalState
      ensures received == if Contents() == [] then receiver else Contents()[0]
    {
      if headNode != null && tailNode != null {
        return NormalState, headNode.payloadData;
      }
      return VoidState, receiver;
    }

    /** Removes exactly the first payload the comparison accepts; fails iff it accepts none. */
    method ExciseTailChain(target: T, eval: (T, T) -> int) returns (code: Code)
      requires Valid()
      modifies this, nodes
      ensures Valid()
      ensures var k := FirstMatch(old(Contents()), target, eval);
        && (code == VoidState <==> k == |old(Contents())|) && (code == NormalState || code == VoidState)
        && Contents() == (if code == NormalState then RemoveAt(old(Contents()), k) else old(Contents()))
        && nodes == (if code == NormalState then RemoveAt(old(nodes), k) else old(nodes))
    {
      var scanner := headNode;
      ghost var k := 0;
      while scanner != null
        invariant 0 <= k <= |nodes|
        invariant scanner == if k == |nodes| then null else nodes[k]
        invariant forall i | 0 <= i < k :: eval(Contents()[i], target) != 0
        decreases |nodes| - k
      {
        assert Contents()[k] == scanner.payloadData;
        if eval(scanner.payloadData, target) != 0 {
          scanner := scanner.successorLink;
          k := k + 1;
        } else {
          FirstMatchIs(Contents(), target, eval, k);
          Unlink(scanner, k);
          return NormalState;
        }
      }
      FirstMatchIs(Contents(), target, eval, k);
      return VoidState;
    }

    /** Removes the payload at an offset and hands it over. The offset is compared as a size_t, so a
        negative one is as far out of range as can be. */
    method ExciseOffsetChain(offset: int, receiver: T) returns (ok: bool, received: T)
      requires Valid()
      modifies this, nodes
      ensures Valid()
      ensures ok <==> offset % SIZE_RANGE < |old(Contents())|
      ensures |old(Contents())| <= SIZE_RANGE / 2 && -SIZE_RANGE / 2 <= offset < SIZE_RANGE / 2 ==>
        (ok <==> 0 <= offset < |old(Contents())|)
      ensures ok ==> received == old(Contents())[offset % SIZE_RANGE]
                     && Contents() == RemoveAt(old(Contents()), offset % SIZE_RANGE)
                     && nodes == RemoveAt(old(nodes), offset % SIZE_RANGE)
      ensures !ok ==> received == receiver && Contents() == old(Contents()) && nodes == old(nodes)
    {
      var tracker := headNode;
      var stepper := 0;
      var bound := offset % SIZE_RANGE;
      while tracker != null && stepper < bound
        invariant 0 <= stepper <= bound && stepper <= |nodes|
        invariant tracker == if stepper == |nodes| then null else nodes[stepper]
        decreases |nodes| - stepper
      {
        tracker := tracker.successorLink;
        stepper := stepper + 1;
      }
      if tracker != null {
        received := tracker.payloadData;
        Unlink(tracker, stepper);
        return true, received;
      }
      return false, receiver;
    }

    /** The walk along the successor links inside `unseen`. */
    ghost function Forward(unit: LinkUnit?<T>, unseen: set<LinkUnit<T>>): seq<LinkUnit<T>>
      reads unseen
      decreases unseen
    {
      if unit == null || unit !in unseen then [] else [unit] + Forward(unit.successorLink, unseen - {unit})
    }

    ghost function Backward(unit: LinkUnit?<T>, unseen: set<LinkUnit<T>>): seq<LinkUnit<T>>
      reads unseen
      decreases unseen
    {
      if unit == null || unit !in unseen then [] else [unit] + Backward(unit.predecessorLink, unseen - {unit})
    }

    lemma {:induction false} ForwardIs(k: nat, unseen: set<LinkUnit<T>>)
      requires Valid() && k <= |nodes| && unseen == (set i | k <= i < |nodes| :: nodes[i])
      ensures Forward(if k == |nodes| then null else nodes[k], unseen) == nodes[k..]
      decreases |nodes| - k
    {
      if k < |nodes| {
        assert nodes[k] in unseen;
        assert unseen - {nodes[k]} == set i | k + 1 <= i < |nodes| :: nodes[i];
        ForwardIs(k + 1, unseen - {nodes[k]});
        assert nodes[k..] == [nodes[k]] + nodes[k + 1..];
      }
    }

    lemma {:induction false} BackwardIs(k: nat, unseen: set<LinkUnit<T>>)
      requires Valid() && k <= |nodes| && unseen == (set i | 0 <= i < k :: nodes[i])
      ensures Backward(if k == 0 then null else nodes[k - 1], unseen) == Reverse(nodes[..k])
      decreases k
    {
      if k > 0 {
        assert nodes[k - 1] in unseen;
        assert unseen - {nodes[k - 1]} == set i | 0 <= i < k - 1 :: nodes[i];
        BackwardIs(k - 1, unseen - {nodes[k - 1]});
        assert nodes[..k] == nodes[..k - 1] + [nodes[k - 1]];
        ReverseSnoc(nodes[..k - 1], nodes[k - 1]);
      }
    }

    /** The two walks are exact reverses of each other: no unit is shared or skipped, each walk stops at a
        null link and not at a unit it has met, and the chain is empty at one end exactly when it is at the
        other. */
    lemma WalksAreReverses()
      requires Valid()
      ensures var all := set i | 0 <= i < |nodes| :: nodes[i];
        && Forward(headNode, all) == nodes && Backward(tailNode, all) == Reverse(nodes)
        && (headNode == null <==> tailNode == null)
        && (headNode != null ==> Forward(headNode, all)[|nodes| - 1].successorLink == null)
        && (tailNode != null ==> Backward(tailNode, all)[|nodes| - 1].predecessorLink == null)
      ensures forall i, j | 0 <= i < j < |nodes| :: nodes[i] != nodes[j]
    {
      var all := set i | 0 <= i < |nodes| :: nodes[i];
      ForwardIs(0, all);
      BackwardIs(|nodes|, all);
      assert nodes[..|nodes|] == nodes && nodes[0..] == nodes;
      if nodes != [] {
        assert Reverse(nodes) == Reverse(nodes[1..]) + [nodes[0]];
        assert |Reverse(nodes)| == |nodes|;
      }
    }
  }

  lemma {:induction false} FirstMatchIs<T>(s: seq<T>, target: T, eval: (T, T) -> int, k: nat)
    requires k <= |s| && (forall i | 0 <= i < k :: eval(s[i], target) != 0)
    requires k < |s| ==> eval(s[k], target) == 0
    ensures FirstMatch(s, target, eval) == k
  {
    if k > 0 {
      assert forall i | 0 <= i < k - 1 :: s[1..][i] == s[i + 1];
      FirstMatchIs(s[1..], target, eval, k - 1);
    }
  }

  // ---------------------------------------------------------------- any run of operations

  datatype Operation<T> = Push(payload: T) | Pop | RemoveFirst(target: T) | RemoveOffset(offset: int)

  /** What an operation does to the sequence the chain stands for. */
  function Effect<T>(s: seq<T>, op: Operation<T>, eval: (T, T) -> int): seq<T> {
    match op
    case Push(payload) => s + [payload]
    case Pop => if s == [] then s else s[1..]
    case RemoveFirst(target) =>
      var k := FirstMatch(s, target, eval);
      if k < |s| then RemoveAt(s, k) else s
    case RemoveOffset(offset) => if offset % SIZE_RANGE < |s| then RemoveAt(s, offset % SIZE_RANGE) else s
  }

  function Effects<T>(s: seq<T>, ops: seq<Operation<T>>, eval: (T, T) -> int): seq<T>
    decreases |ops|
  {
    if ops == [] then s else Effects(Effect(s, ops[0], eval), ops[1..], eval)
  }

  method Perform<T>(chain: ChainLedger<T>, op: Operation<T>, eval: (T, T) -> int, scratch: T)
    requires chain.Valid()
    modifies chain, chain.nodes
    ensures chain.Valid() && chain.Contents() == Effect(old(chain.Contents()), op, eval)
    ensures forall i | 0 <= i < |chain.nodes| :: chain.nodes[i] in old(chain.nodes) || fresh(chain.nodes[i])
  {
    match op {
      case Push(payload) =>
        var code := chain.PushToChain(payload, true);
      case Pop =>
        var code, received := chain.PopFromChain(scratch);
      case RemoveFirst(target) =>
        var code := chain.ExciseTailChain(target, eval);
      case RemoveOffset(offset) =>
        var ok, received := chain.ExciseOffsetChain(offset, scratch);
    }
  }

  /** Every run of operations on a new chain leaves a well-linked chain that stands for what the same
      run makes of the empty sequence. */
  method RunOperations<T>(ops: seq<Operation<T>>, eval: (T, T) -> int, scratch: T) returns (chain: ChainLedger<T>)
    ensures fresh(chain) && chain.Valid() && chain.Contents() == Effects([], ops, eval)
  {
    chain := new ChainLedger<T>();
    var n := 0;
    while n < |ops|
      invariant 0 <= n <= |ops| && fresh(chain) && chain.Valid()
      invariant forall i | 0 <= i < |chain.nodes| :: fresh(chain.nodes[i])
      invariant Effects(chain.Contents(), ops[n..], eval) == Effects([], ops, eval)
    {
      assert ops[n..][1..] == ops[n + 1..];
      Perform(chain, ops[n], eval, scratch);
      n := n + 1;
    }
    assert ops[n..] == [];
  }
}
