/** A whole stream, byte by byte: the states the decoder goes through, and the output it adds up. */
module PngRules {
  import opened Wrappers
  import opened Bytes
  import opened PngInflate

  /** From s on, each byte leads to the next state, and the last one, and only it, to the end. */
  ghost predicate Path<S(!new)>(step: Decoder<S>, s: S, input: seq<Byte>, states: seq<S>) {
    && input != [] && |states| == |input| && states[0] == s
    && (forall i :: 0 <= i < |input| - 1 ==> Leads(step, input, states, i))
    && step(states[|input| - 1], input[|input| - 1]).Last?
  }

  ghost predicate Leads<S(!new)>(step: Decoder<S>, input: seq<Byte>, states: seq<S>, i: nat)
    requires |states| == |input| && i + 1 < |input|
  {
    var next := step(states[i], input[i]);
    next.More? && next.state == states[i + 1]
  }

  /** What the bytes put out on the way. */
  ghost function Output<S(!new)>(step: Decoder<S>, input: seq<Byte>, states: seq<S>): nat
    requires |states| == |input|
  {
    if input == [] then 0
    else
      var next := step(states[0], input[0]);
      (if next.More? then next.output else 0) + Output(step, input[1..], states[1..])
  }

  /** A stream is whole if and only if the decoder has such a path over all its bytes, and then it produces that output. */
  lemma WholeExactly<S(!new)>(step: Decoder<S>, s: S, input: seq<Byte>)
    ensures Whole(Decode(step, s, input)) <==> exists states :: Path(step, s, input, states)
    ensures forall states :: Path(step, s, input, states) ==> Decode(step, s, input) == Ended(Output(step, input, states), 0)
  {
    hide Decode, Output, Leads;
    if Whole(Decode(step, s, input)) {
      var states := PathOf(step, s, input);
    }
    forall states | Path(step, s, input, states)
      ensures Decode(step, s, input) == Ended(Output(step, input, states), 0)
    {
      PathIsWhole(step, s, input, states);
    }
  }

  lemma {:induction false} PathOf<S(!new)>(step: Decoder<S>, s: S, input: seq<Byte>) returns (states: seq<S>)
    requires Whole(Decode(step, s, input))
    ensures Path(step, s, input, states)
    decreases |input|
  {
    var next := step(s, input[0]);
    if next.Last? {
      states := [s];
    } else {
      var rest := PathOf(step, next.state, input[1..]);
      states := [s] + rest;
      forall i | 0 <= i < |input| - 1
        ensures Leads(step, input, states, i)
      {
        assert i > 0 ==> Leads(step, input[1..], rest, i - 1);
      }
    }
  }

  lemma {:induction false} PathIsWhole<S(!new)>(step: Decoder<S>, s: S, input: seq<Byte>, states: seq<S>)
    requires Path(step, s, input, states)
    ensures Decode(step, s, input) == Ended(Output(step, input, states), 0)
    decreases |input|
  {
    if |input| > 1 {
      assert Leads(step, input, states, 0);
      forall i | 0 <= i < |input| - 2
        ensures Leads(step, input[1..], states[1..], i)
      {
        assert Leads(step, input, states, i + 1);
      }
      PathIsWhole(step, states[1], input[1..], states[1..]);
    } else {
      assert Output(step, input[1..], states[1..]) == 0;
    }
  }
}
