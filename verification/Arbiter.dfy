/** The hardware priority decoder that picks the TXT buffer to transmit from:
    three levels of comparators (4 + 2 + 1) over eight inputs. */
module Arbiter {

  /** What a comparator hands to the next level. */
  datatype Node = Node(valid: bool, prio: nat, index: nat)

  /** One comparator: an invalid input loses; of two valid inputs the upper one
      wins only with a strictly larger priority; two invalid inputs select the upper one. */
  function Compare(lower: Node, upper: Node): Node {
    if lower.valid && !upper.valid then lower
    else if lower.valid && upper.valid && upper.prio <= lower.prio then lower
    else upper
  }

  /** The last comparator differs only in selecting the lower tree when both are invalid. */
  function CompareTop(lower: Node, upper: Node): Node {
    if upper.valid && (!lower.valid || upper.prio > lower.prio) then upper else lower
  }

  /** Decoder output for `n` buffers: `None` when output_valid is low, else output_index. */
  datatype Selection = NoBuffer | Buffer(index: nat)

  function Input(ready: seq<bool>, prio: seq<nat>, i: nat): Node
    requires |prio| == |ready|
  {
    if i < |ready| then Node(ready[i], prio[i], i) else Node(false, 0, i)
  }

  function Tree(ready: seq<bool>, prio: seq<nat>): Node
    requires |prio| == |ready|
  {
    var l1 := (i: nat) => Compare(Input(ready, prio, 2 * i), Input(ready, prio, 2 * i + 1));
    CompareTop(Compare(l1(0), l1(1)), Compare(l1(2), l1(3)))
  }

  function Decode(ready: seq<bool>, prio: seq<nat>): Selection
    requires 1 <= |ready| <= 8 && |prio| == |ready|
  {
    var top := Tree(ready, prio);
    if top.valid then Buffer(top.index % |ready|) else NoBuffer
  }

  /** `d` is a ready buffer of greatest priority, the lowest index among equals. */
  ghost predicate Highest(ready: seq<bool>, prio: seq<nat>, d: nat)
    requires |prio| == |ready|
  {
    && d < |ready| && ready[d]
    && (forall i | 0 <= i < |ready| && ready[i] :: prio[i] <= prio[d])
    && (forall i | 0 <= i < d && ready[i] :: prio[i] < prio[d])
  }

  /** The tournament selects a ready buffer of greatest priority, the lowest index
      among equals, and selects nothing exactly when no buffer is ready. */
  lemma DecodePicksHighest(ready: seq<bool>, prio: seq<nat>)
    requires 1 <= |ready| <= 8 && |prio| == |ready|
    ensures Decode(ready, prio) == NoBuffer <==> forall i | 0 <= i < |ready| :: !ready[i]
    ensures Decode(ready, prio).Buffer? ==> Highest(ready, prio, Decode(ready, prio).index)
  {
    var top := Tree(ready, prio);
    forall i | 0 <= i < |ready| && ready[i]
      ensures top.valid && prio[i] <= top.prio
      ensures prio[i] == top.prio ==> top.index <= i
    {
      assert Input(ready, prio, i) == Node(true, prio[i], i);
      assert i == 0 || i == 1 || i == 2 || i == 3 || i == 4 || i == 5 || i == 6 || i == 7;
    }
    if top.valid {
      assert top == Input(ready, prio, top.index);
      assert top.index < |ready|;
      assert top.index % |ready| == top.index;
    }
  }
}
