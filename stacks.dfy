/** A stack of PyDendro (pydendro/model/stack.py): a named set of sample names with two flags,
    `immutable` and `frozen`. The sample operations change only the set. */
module Stacks {

  /** What `remove_sample` does: it removes the sample, or raises `KeyError` when the set does not
      hold it (`set.remove`). */
  datatype Removal = Removed | KeyError

  class Stack {
    var name: string
    var immutable: bool
    var samples: set<string>
    var frozen: bool

    /** `Stack(name='', immutable=True)`: no samples, not frozen. */
    constructor (name: string := "", immutable: bool := true)
      ensures this.name == name && this.immutable == immutable
      ensures samples == {} && !frozen
    {
      this.name := name;
      this.immutable := immutable;
      samples := {};
      frozen := false;
    }

    /** The fields no sample operation changes. */
    function Flags(): (string, bool, bool)
      reads this
    {
      (name, immutable, frozen)
    }

    /** `add_sample`: afterwards the sample is a member and no other name joins or leaves, so
        adding a member again changes nothing. */
    method AddSample(sample: string)
      modifies this
      ensures samples == old(samples) + {sample}
      ensures name == old(name) && immutable == old(immutable) && frozen == old(frozen)
    {
      samples := samples + {sample};
    }

    /** `remove_sample`: exactly that sample leaves; `KeyError`, and no change, when it is not a
        member. */
    method RemoveSample(sample: string) returns (r: Removal)
      modifies this
      ensures r == Removed <==> old(sample in samples)
      ensures samples == old(samples) - {sample}
      ensures name == old(name) && immutable == old(immutable) && frozen == old(frozen)
    {
      if sample !in samples {
        return KeyError;
      }
      samples := samples - {sample};
      return Removed;
    }

    /** `add_samples`: the set becomes the old set together with every name of `xs`. */
    method AddSamples(xs: seq<string>)
      modifies this
      ensures samples == old(samples) + Names(xs)
      ensures name == old(name) && immutable == old(immutable) && frozen == old(frozen)
    {
      var i := 0;
      while i < |xs|
        invariant i <= |xs|
        invariant samples == old(samples) + Names(xs[..i])
        invariant name == old(name) && immutable == old(immutable) && frozen == old(frozen)
      {
        AddSample(xs[i]);
        Prefixes(xs, i);
        i := i + 1;
      }
      assert xs[..i] == xs;
    }
  }

  /** The names a sequence holds, as a set. */
  function Names(xs: seq<string>): set<string> {
    set x | x in xs
  }

  /** The names of the first `i + 1` elements of `xs` are those of the first `i` and `xs[i]`. */
  lemma {:induction false} Prefixes(xs: seq<string>, i: nat)
    requires i < |xs|
    ensures Names(xs[..i + 1]) == Names(xs[..i]) + {xs[i]}
  {
    assert xs[..i + 1] == xs[..i] + [xs[i]];
  }
}
