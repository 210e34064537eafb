/** The state of the PyDendro application (pydendro/ui/model.py): the stacks by name, the samples
    by name, moving and copying samples between stacks, and importing an RWL file as a new stack. */
module DendroModel {
  import opened Wrappers
  import Rwl
  import opened Stacks

  /** The `KeyError` of a dictionary lookup of an unknown name. */
  datatype LookupError = UnknownName(name: string)

  /** How `add_stack_from_rwl` ends: the new stack, one of its two warnings (after which it returns
      without a stack), or the error `read` raises. */
  datatype Import =
    | Imported(stack: Stack)
    | DuplicateStack(name: string)
    | DuplicateSample(name: string)
    | Unreadable(error: Rwl.ReadError)

  // ---------------------------------------------------------------------------------------------
  // Stack names
  // ---------------------------------------------------------------------------------------------

  /** `os.path.basename` on a POSIX path: everything after the last `/`. */
  function Basename(path: string): string
    decreases |path|
  {
    if |path| == 0 || path[|path| - 1] == '/' then ""
    else Basename(path[..|path| - 1]) + [path[|path| - 1]]
  }

  /** `s.split('.')[0]`: the longest prefix of `s` without a dot. */
  function BeforeDot(s: string): string {
    if |s| == 0 || s[0] == '.' then "" else [s[0]] + BeforeDot(s[1..])
  }

  /** The name `add_stack_from_rwl` gives the stack it imports from `filename`. */
  function StackName(filename: string): string {
    BeforeDot(Basename(filename))
  }

  /** The basename of a path is what follows its directory part: every path is such a directory
      part, empty or ending in `/`, followed by a part without `/`. */
  lemma {:induction false} BasenameAfter(dir: string, base: string)
    requires dir == "" || dir[|dir| - 1] == '/'
    requires '/' !in base
    ensures Basename(dir + base) == base
    decreases |base|
  {
    if base == "" {
      assert dir + base == dir;
    } else {
      var n := |base| - 1;
      assert (dir + base)[..|dir + base| - 1] == dir + base[..n];
      BasenameAfter(dir, base[..n]);
      assert base[..n] + [base[n]] == base;
    }
  }

  /** The part before the first dot: every string is a part without a dot followed by nothing or
      by a dot and the rest. */
  lemma {:induction false} BeforeDotStem(stem: string, ext: string)
    requires '.' !in stem
    requires ext == "" || ext[0] == '.'
    ensures BeforeDot(stem + ext) == stem
    decreases |stem|
  {
    if stem == "" {
      assert stem + ext == ext;
    } else {
      assert (stem + ext)[1..] == stem[1..] + ext;
      BeforeDotStem(stem[1..], ext);
      assert [stem[0]] + stem[1..] == stem;
    }
  }

  /** The stack name is the file's basename up to its first dot: `dir/stem.ext` and `dir/stem`
      both give `stem`, whatever the directory and the rest of the extension are. */
  lemma {:induction false} StackNameOf(dir: string, stem: string, ext: string)
    requires dir == "" || dir[|dir| - 1] == '/'
    requires '/' !in stem && '.' !in stem
    requires '/' !in ext && (ext == "" || ext[0] == '.')
    ensures StackName(dir + stem + ext) == stem
  {
    assert dir + stem + ext == dir + (stem + ext);
    BasenameAfter(dir, stem + ext);
    BeforeDotStem(stem, ext);
  }

  // ---------------------------------------------------------------------------------------------
  // Moving, copying and registering, on values
  // ---------------------------------------------------------------------------------------------

  /** The sample sets of the stacks after moving `sample` from `source` to `destination`: added to
      the destination, then removed from the source. Nothing changes when either stack is
      unknown; moving within one stack removes the sample. */
  function Moved(c: map<string, set<string>>, source: string, sample: string, destination: string)
    : (r: map<string, set<string>>)
    ensures r.Keys == c.Keys
    ensures source !in c || destination !in c ==> r == c
    ensures source in c && destination in c && source != destination ==>
              r[source] == c[source] - {sample} && r[destination] == c[destination] + {sample}
    ensures source in c && destination == source ==> r[source] == c[source] - {sample}
    ensures forall k :: k in c && k != source && k != destination ==> r[k] == c[k]
  {
    if source in c && destination in c then
      var added := c[destination := c[destination] + {sample}];
      added[source := added[source] - {sample}]
    else c
  }

  /** The sample sets after copying `sample` from `source` to `destination`: only the destination
      changes, and only when both stacks are known. */
  function Copied(c: map<string, set<string>>, source: string, sample: string, destination: string)
    : (r: map<string, set<string>>)
    ensures r.Keys == c.Keys
    ensures source !in c || destination !in c ==> r == c
    ensures source in c && destination in c ==> r[destination] == c[destination] + {sample}
    ensures forall k :: k in c && k != destination ==> r[k] == c[k]
  {
    if source in c && destination in c then c[destination := c[destination] + {sample}] else c
  }

  /** Moving a sample there and back restores the stacks when it started out in the source only. */
  lemma {:induction false} MoveBack(c: map<string, set<string>>, source: string, sample: string, destination: string)
    requires source in c && destination in c && source != destination
    requires sample in c[source] && sample !in c[destination]
    ensures Moved(Moved(c, source, sample, destination), destination, sample, source) == c
  {
    var there := Moved(c, source, sample, destination);
    var back := Moved(there, destination, sample, source);
    assert back[source] == c[source];
    assert back[destination] == c[destination];
  }

  /** Copying twice is copying once. */
  lemma {:induction false} CopyIdempotent(c: map<string, set<string>>, source: string, sample: string, destination: string)
    ensures Copied(Copied(c, source, sample, destination), source, sample, destination)
            == Copied(c, source, sample, destination)
  {
    var once := Copied(c, source, sample, destination);
    if source in c && destination in c {
      assert once[destination] + {sample} == once[destination];
    }
  }

  /** The sample registry after `for sample in samples: self._samples[str(sample)] = sample`. */
  function Register(m: map<string, Rwl.Sample>, ss: seq<Rwl.Sample>): map<string, Rwl.Sample>
    decreases |ss|
  {
    if |ss| == 0 then m else Register(m, ss[..|ss| - 1])[ss[|ss| - 1].name := ss[|ss| - 1]]
  }

  /** Some sample of `ss` is named `k`. */
  predicate Named(ss: seq<Rwl.Sample>, k: string) {
    exists i :: 0 <= i < |ss| && ss[i].name == k
  }

  /** No sample after `ss[i]` has its name. */
  predicate LastOfName(ss: seq<Rwl.Sample>, i: nat)
    requires i < |ss|
  {
    forall j :: i < j < |ss| ==> ss[j].name != ss[i].name
  }

  /** A name is read by `ss` exactly when it is read by all but the last sample or by the last. */
  lemma {:induction false} NamedSnoc(ss: seq<Rwl.Sample>, k: string)
    requires |ss| > 0
    ensures Named(ss, k) <==> Named(ss[..|ss| - 1], k) || ss[|ss| - 1].name == k
  {
    var pre := ss[..|ss| - 1];
    if Named(ss, k) && ss[|ss| - 1].name != k {
      var i :| 0 <= i < |ss| && ss[i].name == k;
      assert pre[i].name == k;
    }
    if Named(pre, k) {
      var i :| 0 <= i < |pre| && pre[i].name == k;
      assert ss[i].name == k;
    }
  }

  /** Registering adds the names read and no other. */
  lemma {:induction false} RegisterKeys(m: map<string, Rwl.Sample>, ss: seq<Rwl.Sample>, k: string)
    ensures k in Register(m, ss) <==> k in m || Named(ss, k)
    decreases |ss|
  {
    if |ss| > 0 {
      RegisterKeys(m, ss[..|ss| - 1], k);
      NamedSnoc(ss, k);
    }
  }

  /** An entry whose name is not read stays as it was. */
  lemma {:induction false} RegisterKeeps(m: map<string, Rwl.Sample>, ss: seq<Rwl.Sample>, k: string)
    requires k in m && !Named(ss, k)
    ensures k in Register(m, ss) && Register(m, ss)[k] == m[k]
    decreases |ss|
  {
    if |ss| > 0 {
      NamedSnoc(ss, k);
      RegisterKeeps(m, ss[..|ss| - 1], k);
    }
  }

  /** A read sample is registered under its name unless a later one of the same name replaces it. */
  lemma {:induction false} RegisterLast(m: map<string, Rwl.Sample>, ss: seq<Rwl.Sample>, i: nat)
    requires i < |ss| && LastOfName(ss, i)
    ensures ss[i].name in Register(m, ss) && Register(m, ss)[ss[i].name] == ss[i]
    decreases |ss|
  {
    var n := |ss| - 1;
    if i < n {
      var pre := ss[..n];
      assert pre[i] == ss[i];
      assert LastOfName(pre, i) by {
        forall j | i < j < |pre| ensures pre[j].name != pre[i].name {
          assert pre[j] == ss[j];
        }
      }
      RegisterLast(m, pre, i);
    }
  }

  /** The name of the first read sample, in file order, that is already registered in `m`. */
  function FirstRegistered(m: map<string, Rwl.Sample>, ss: seq<Rwl.Sample>): Option<string>
    decreases |ss|
  {
    if |ss| == 0 then None
    else if ss[0].name in m then Some(ss[0].name)
    else FirstRegistered(m, ss[1..])
  }

  /** The duplicate check finds a registered name exactly when there is one, and then the first. */
  lemma {:induction false} FirstRegisteredMeaning(m: map<string, Rwl.Sample>, ss: seq<Rwl.Sample>)
    ensures FirstRegistered(m, ss).None? <==> forall i :: 0 <= i < |ss| ==> ss[i].name !in m
    ensures FirstRegistered(m, ss).Some? ==>
              exists i :: 0 <= i < |ss| && ss[i].name == FirstRegistered(m, ss).value && ss[i].name in m
                          && forall j :: 0 <= j < i ==> ss[j].name !in m
    decreases |ss|
  {
    if |ss| > 0 && ss[0].name !in m {
      FirstRegisteredMeaning(m, ss[1..]);
      assert forall i :: 1 <= i < |ss| ==> ss[i] == ss[1..][i - 1];
      if FirstRegistered(m, ss).Some? {
        var i :| 0 <= i < |ss[1..]| && ss[1..][i].name == FirstRegistered(m, ss).value && ss[1..][i].name in m
                 && forall j :: 0 <= j < i ==> ss[1..][j].name !in m;
        assert forall j :: 0 <= j < i + 1 ==> ss[j].name !in m by {
          forall j | 0 <= j < i + 1 ensures ss[j].name !in m {
            if j > 0 { assert ss[j] == ss[1..][j - 1]; }
          }
        }
      }
    } else if |ss| > 0 {
      assert ss[0].name == FirstRegistered(m, ss).value;
    }
  }

  /** Two read samples with the same name: the second is the one registered. */
  lemma {:induction false} LaterSampleWins(m: map<string, Rwl.Sample>, a: Rwl.Sample, b: Rwl.Sample)
    requires a.name == b.name
    ensures Register(m, [a, b]) == m[b.name := b]
  {
    assert [a, b][..1] == [a];
    assert [a][..0] == [];
    assert Register(m, [a]) == m[a.name := a];
  }

  /** `map(lambda x: str(x), samples)`: the names of the read samples, in file order. */
  function SampleNames(ss: seq<Rwl.Sample>): (ns: seq<string>)
    ensures |ns| == |ss|
    ensures forall i :: 0 <= i < |ss| ==> ns[i] == ss[i].name
  {
    seq(|ss|, i requires 0 <= i < |ss| => ss[i].name)
  }

  // ---------------------------------------------------------------------------------------------
  // The model
  // ---------------------------------------------------------------------------------------------

  class PyDendroModel {
    var stacks: map<string, Stack>
    var samples: map<string, Rwl.Sample>

    /** No stacks and no samples. */
    constructor ()
      ensures stacks == map[] && samples == map[]
    {
      stacks := map[];
      samples := map[];
    }

    /** Every stack is filed under its own name, so distinct names hold distinct stacks. No
        operation of the model breaks this. */
    ghost predicate Keyed()
      reads this, stacks.Values
    {
      forall k :: k in stacks ==> stacks[k].name == k
    }

    /** The sample set of every stack, by name. */
    ghost function Contents(): map<string, set<string>>
      reads this, stacks.Values
    {
      map k | k in stacks :: stacks[k].samples
    }

    /** `add_stack`: files the stack under its name, replacing any stack of that name. */
    method AddStack(stack: Stack)
      modifies this
      ensures stacks == old(stacks)[stack.name := stack] && samples == old(samples)
      ensures old(Keyed()) ==> Keyed()
    {
      stacks := stacks[stack.name := stack];
    }

    /** `get_stack`: the stack of that name; `KeyError` for an unknown one. */
    function GetStack(name: string): (r: Result<Stack, LookupError>)
      reads this
      ensures r.Success? <==> name in stacks
      ensures r.Success? ==> r.value == stacks[name]
      ensures r.Failure? ==> r.error == UnknownName(name)
    {
      if name in stacks then Success(stacks[name]) else Failure(UnknownName(name))
    }

    /** `get_sample`: the sample of that name; `KeyError` for an unknown one. */
    function GetSample(name: string): (r: Result<Rwl.Sample, LookupError>)
      reads this
      ensures r.Success? <==> name in samples
      ensures r.Success? ==> r.value == samples[name]
      ensures r.Failure? ==> r.error == UnknownName(name)
    {
      if name in samples then Success(samples[name]) else Failure(UnknownName(name))
    }

    /** `samples_in_stack`: the samples of the stack, each once, in the arbitrary order in which
        the set yields them; `KeyError` for an unknown stack. */
    method SamplesInStack(name: string) returns (r: Result<seq<string>, LookupError>)
      ensures r.Success? <==> name in stacks
      ensures r.Failure? ==> r.error == UnknownName(name)
      ensures r.Success? ==> Names(r.value) == stacks[name].samples && |r.value| == |stacks[name].samples|
      ensures r.Success? ==> forall i, j :: 0 <= i < j < |r.value| ==> r.value[i] != r.value[j]
    {
      if name !in stacks {
        return Failure(UnknownName(name));
      }
      var rest := stacks[name].samples;
      var out: seq<string> := [];
      while rest != {}
        invariant Names(out) + rest == stacks[name].samples && Names(out) !! rest
        invariant |out| + |rest| == |stacks[name].samples|
        invariant forall i, j :: 0 <= i < j < |out| ==> out[i] != out[j]
        decreases |rest|
      {
        var x :| x in rest;
        assert Names(out + [x]) == Names(out) + {x};
        out := out + [x];
        rest := rest - {x};
      }
      return Success(out);
    }

    /** The stacks `move_sample` and `copy_sample` may change: the two named ones, when both exist. */
    function Ends(source: string, destination: string): set<Stack>
      reads this
    {
      if source in stacks && destination in stacks then {stacks[source], stacks[destination]} else {}
    }

    /** `move_sample`: the sample is added to the destination and then removed from the source,
        the `KeyError` of either lookup or of the removal swallowed. An unknown stack changes
        nothing; a sample missing from the source still reaches the destination; moving within one
        stack removes the sample. No other stack changes. */
    method MoveSample(source: string, sample: string, destination: string)
      modifies Ends(source, destination)
      ensures source in stacks && destination in stacks ==>
                stacks[source].samples == old(stacks[source].samples) - {sample}
                && (stacks[destination] != stacks[source] ==>
                      stacks[destination].samples == old(stacks[destination].samples) + {sample})
      ensures source in stacks && destination in stacks ==>
                stacks[source].Flags() == old(stacks[source].Flags())
                && stacks[destination].Flags() == old(stacks[destination].Flags())
      ensures old(Keyed()) ==> Keyed() && Contents() == Moved(old(Contents()), source, sample, destination)
    {
      if source !in stacks || destination !in stacks {
        return;
      }
      ghost var before := Contents();
      var src, dst := stacks[source], stacks[destination];
      dst.AddSample(sample);
      var removal := src.RemoveSample(sample);
      if old(Keyed()) {
        forall k | k in stacks && k != source && k != destination
          ensures stacks[k].samples == before[k] && stacks[k].name == k
        {
          assert stacks[k] != src && stacks[k] != dst;
        }
        assert source != destination ==> src != dst;
        MovedContents(before, source, sample, destination);
      }
    }

    /** `copy_sample`: the sample is added to the destination; the source, and everything when
        either stack is unknown, stays as it was. */
    method CopySample(source: string, sample: string, destination: string)
      modifies Ends(source, destination)
      ensures source in stacks && destination in stacks ==>
                stacks[destination].samples == old(stacks[destination].samples) + {sample}
                && (stacks[source] != stacks[destination] ==> unchanged(stacks[source]))
      ensures source in stacks && destination in stacks ==>
                stacks[source].Flags() == old(stacks[source].Flags())
                && stacks[destination].Flags() == old(stacks[destination].Flags())
      ensures old(Keyed()) ==> Keyed() && Contents() == Copied(old(Contents()), source, sample, destination)
    {
      if source !in stacks || destination !in stacks {
        return;
      }
      ghost var before := Contents();
      var dst := stacks[destination];
      dst.AddSample(sample);
      if old(Keyed()) {
        forall k | k in stacks && k != destination
          ensures stacks[k].samples == before[k] && stacks[k].name == k
        {
          assert stacks[k] != dst;
        }
        CopiedContents(before, source, sample, destination);
      }
    }

    /** The sample sets by name, when only the two named stacks changed as a move changes them. */
    lemma {:induction false} MovedContents(before: map<string, set<string>>, source: string, sample: string,
                                           destination: string)
      requires before.Keys == stacks.Keys && source in stacks && destination in stacks
      requires forall k :: k in stacks && k != source && k != destination ==> stacks[k].samples == before[k]
      requires stacks[source].samples == before[source] - {sample}
      requires source != destination ==> stacks[destination].samples == before[destination] + {sample}
      ensures Contents() == Moved(before, source, sample, destination)
    {
      var spec := Moved(before, source, sample, destination);
      assert forall k :: k in stacks ==> Contents()[k] == spec[k];
    }

    /** The sample sets by name, when only the destination changed as a copy changes it. */
    lemma {:induction false} CopiedContents(before: map<string, set<string>>, source: string, sample: string,
                                            destination: string)
      requires before.Keys == stacks.Keys && source in stacks && destination in stacks
      requires forall k :: k in stacks && k != destination ==> stacks[k].samples == before[k]
      requires stacks[destination].samples == before[destination] + {sample}
      ensures Contents() == Copied(before, source, sample, destination)
    {
      var spec := Copied(before, source, sample, destination);
      assert forall k :: k in stacks ==> Contents()[k] == spec[k];
    }

    /** The duplicate check of `add_stack_from_rwl`: the first read sample, in file order, whose
        name is already registered. */
    method CheckSamples(loaded: seq<Rwl.Sample>) returns (dup: Option<string>)
      ensures dup == FirstRegistered(samples, loaded)
    {
      var i := 0;
      while i < |loaded|
        invariant i <= |loaded|
        invariant FirstRegistered(samples, loaded[i..]) == FirstRegistered(samples, loaded)
      {
        assert loaded[i..][1..] == loaded[i + 1..];
        if loaded[i].name in samples {
          return Some(loaded[i].name);
        }
        i := i + 1;
      }
      return None;
    }

    /** The registration loop of `add_stack_from_rwl`: every read sample under its name. */
    method RegisterSamples(loaded: seq<Rwl.Sample>)
      modifies this
      ensures samples == Register(old(samples), loaded) && stacks == old(stacks)
    {
      var i := 0;
      while i < |loaded|
        invariant i <= |loaded| && stacks == old(stacks)
        invariant samples == Register(old(samples), loaded[..i])
      {
        assert loaded[..i + 1][..i] == loaded[..i];
        samples := samples[loaded[i].name := loaded[i]];
        i := i + 1;
      }
      assert loaded[..i] == loaded;
    }

    /** `add_stack_from_rwl`, given what `rwl.read(filename)` returns or raises as `read`. It stops
        with a warning, changing nothing, when a stack of the derived name exists or when a read
        sample's name is already registered; it propagates the error of `read`. Otherwise it
        registers every read sample under its name and files a new stack holding exactly those
        names. */
    method AddStackFromRwl(filename: string, read: Result<seq<Rwl.Sample>, Rwl.ReadError>) returns (r: Import)
      modifies this
      ensures StackName(filename) in old(stacks) ==> r == DuplicateStack(StackName(filename))
      ensures StackName(filename) !in old(stacks) ==>
                match read
                case Failure(e) => r == Unreadable(e)
                case Success(ss) =>
                  match FirstRegistered(old(samples), ss)
                  case Some(name) => r == DuplicateSample(name)
                  case None =>
                    r.Imported? && fresh(r.stack)
                    && samples == Register(old(samples), ss)
                    && stacks == old(stacks)[StackName(filename) := r.stack]
                    && r.stack.name == StackName(filename) && r.stack.samples == Names(SampleNames(ss))
                    && r.stack.immutable && !r.stack.frozen
      ensures !r.Imported? ==> stacks == old(stacks) && samples == old(samples)
      ensures old(Keyed()) ==> Keyed()
    {
      var stackName := StackName(filename);
      if stackName in stacks {
        return DuplicateStack(stackName);
      }
      if read.Failure? {
        return Unreadable(read.error);
      }
      var loaded := read.value;
      var dup := CheckSamples(loaded);
      if dup.Some? {
        return DuplicateSample(dup.value);
      }
      RegisterSamples(loaded);
      var stack := new Stack();
      stack.name := stackName;
      stack.AddSamples(SampleNames(loaded));
      AddStack(stack);
      return Imported(stack);
    }
  }
}
