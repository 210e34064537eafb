# PyDendro core in Dafny

PyDendro is a dendrochronology tool kit. This project models:

- the two generations of its RWL ring-width codec. `pydendro/rwl.py` is the current reader and writer, together with the `Sample` record. `pydendro/model/rwl.py` is the first reader and writer.
- the small stateful containers around the codec:
  - the `Stack` class (a named set of sample names with two flags);
  - the `PyDendroModel` application state (stacks and samples by name, moving and copying samples, importing an RWL file as a new stack);
  - the `Measurements` dictionary of lists that the VRO recorder (`pyvroui.py`) keeps.

Files:

- `wrappers.dfy` (`Wrappers`): `Option` and `Result`.
- `text.dfy` (`Text`): models of `str.split()`, `str.strip()`, `%-Ns`/`%Nd` padding, `str(n)` and `int(token)`.
- `sorting.dfy` (`Sorting`): `sorted(xs, key=k)` for string keys, as a stable insertion sort.
- `rwl.dfy` (`Rwl`): the current codec. `Read` and `WriteSample`/`WriteAll`/`Write` are loops proved against the functions `ReadSpec` and `WriteSpec`.
- `rwl_reading.dfy` (`RwlReading`): what `read` does with any input. It covers the loop read forward, which line an error cites, blank lines, and when a sample closes.
- `rwl_roundtrip.dfy` (`RwlRoundTrip`): reading back what `write` wrote gives the decoded samples.
- `legacy_rwl.dfy` (`LegacyRwl`): the first codec, both as written and with its writer's first-line flush corrected.
- `legacy_roundtrip.dfy` (`LegacyRoundTrip`): the first codec's round trip, and the file its writer as written cannot read back.
- `stacks.dfy` (`Stacks`): the `Stack` class.
- `dendro_model.dfy` (`DendroModel`): the `PyDendroModel` class.
- `vro.dfy` (`Vro`): the `Measurements` class.

Other modelling choices:

- Files are sequences of lines. `read` takes the stripped lines that `read_text` yields, and `write` returns the lines it would put in the file.
- Widths are kept as the integers the writer prints (already scaled by `10^(digits-1)` and rounded). The reader decodes them exactly, as `real`.
- Exceptions are error results: `ValueError(line)`, `IndexError`, `UnicodeEncodeError` and `KeyError`. The warnings of `add_stack_from_rwl` are results too.

## Model

| member | source | states |
|---|---|---|
| Rwl.Sample.Years | pydendro/rwl.py:55-57 | `years` has `nyears` elements, and element `i` is `fyog + i` |
| Rwl.Sample.Lyog | pydendro/rwl.py:63-65 | `lyog` is the last year of `years`, or `fyog - 1` when there is no ring |
| Rwl.ReadText | pydendro/rwl.py:68-74 | one line per line of the file, each stripped of Python 3 whitespace |
| Text.StripShape | pydendro/rwl.py:73 | `strip` keeps a contiguous part that neither starts nor ends with a blank, and removes only blanks |
| Text.SplitShape | pydendro/rwl.py:94 | every token of `split()` is non-empty and blank-free |
| Text.SplitBreak | pydendro/rwl.py:91-94 | a blank at a junction keeps the tokens of the two halves apart, which is what the column repair relies on |
| Text.ParseIntOfIntToString | pydendro/rwl.py:100-106 | `int(str(n)) == n` for every integer |
| Rwl.ParseIntsMeaning | pydendro/rwl.py:106 | `map(int, toks)` succeeds exactly when every token is an integer, and then yields each token's value in order |
| Rwl.DecodeEach | pydendro/rwl.py:122-123 | each decoded width is its raw value divided by `10^(d-1)`, in order |
| Rwl.DecodeScale | pydendro/rwl.py:122-123 | one width per raw value, and multiplying it by `10^(d-1)` gives the value back |
| Rwl.CloseShape | pydendro/rwl.py:117-126 | the closed sample keeps name and first year, drops the terminator, and divides the rest by `10^(d-1)`, where `d` is `digits` if truthy and otherwise the terminator's digit count |
| Rwl.Read | pydendro/rwl.py:77-132 | the loop returns exactly `ReadSpec`: the samples, or the exception of the first failing line |
| RwlReading.PrefixScan | pydendro/rwl.py:87-130 | once the loop has reached line `k`, the rest of `read` is the loop from there on the state reached |
| RwlReading.ReadIsPrefix | pydendro/rwl.py:87-132 | `read` returns the samples completed after the last line, or the first exception |
| RwlReading.PrefixFailureSticks | pydendro/rwl.py:101-108 | an exception ends the loop: every later state is the same failure |
| RwlReading.ValueErrorAt | pydendro/rwl.py:96-108 | the first line whose year or width field is not an integer makes `read` fail with `ValueError` citing that line, 1-based, and return no sample |
| RwlReading.ValueErrorExample | pydendro/rwl.py:88-102 | `["", "ABCDEFGH19x0"]` fails with `ValueError(2)`: the blank line is skipped, and the repair splits off the year `19x0` |
| RwlReading.UnparsableExample | pydendro/rwl.py:91-100 | `ABCDEFGH19x0` is repaired to `ABCDEFGH 19x0`, whose year field is not an integer |
| RwlReading.ReadSucceeds | pydendro/rwl.py:96-132 | samples come back only when every line was reached and none was unparsable |
| RwlReading.DataLine | pydendro/rwl.py:97-130 | on a parsable data line, name and year come from a sample's first row and values from every row; no value at all raises `IndexError`; the sample closes exactly when the end test holds |
| RwlReading.NegativeLastCloses | pydendro/rwl.py:111-130 | a negative last value closes the sample, whatever the next line holds |
| RwlReading.BlankLineSkipped | pydendro/rwl.py:88-89 | an empty line changes neither the accumulator nor the samples |
| RwlReading.BlankNextCloses | pydendro/rwl.py:112-113 | a data line followed by an empty line closes its sample |
| RwlReading.OpenNamed | pydendro/rwl.py:97-99 | an open sample always has a non-empty name, taken from a field of its first row |
| RwlReading.CloseExample | pydendro/rwl.py:117-123 | raw `[123, 45, 67, -9999]` with no `digits` gives `d = 4` and the widths `[0.123, 0.045, 0.067]` |
| Sorting.SortByPermutes | pydendro/rwl.py:138-142 | sorting is a permutation of the samples |
| Sorting.SortBySorted | pydendro/rwl.py:138-142 | the result is in ascending key order |
| Sorting.SortByStable | pydendro/rwl.py:138-142 | samples with equal keys keep their input order, as Python's `sorted` guarantees |
| Rwl.WriteSample | pydendro/rwl.py:150-160 | the inner loop emits exactly the decade-aligned layout `Render(name, Chunks(fyog, rws))`, each line with its CRLF |
| Rwl.ChunksLayout | pydendro/rwl.py:153-160 | `Chunks` is a decade-aligned layout: it holds the values in order, its first line is headed by the first year, and it breaks after every year ending in 9 except the last value |
| Rwl.DecadeLayoutUnique | pydendro/rwl.py:153-160 | any decade-aligned layout of the values is `Chunks`, so the writer's layout is the only one |
| Rwl.LayoutExample | pydendro/rwl.py:153-160 | a sample from 1990 to 2015 is written on lines headed 1990, 2000 and 2010; the last holds six widths and the terminator |
| Text.PadRightShape | pydendro/rwl.py:153 | `%-6s` left-justifies in a field of six, without truncating |
| Text.PadLeftShape | pydendro/rwl.py:153-155 | `%4d` and `%6d` right-justify in a field of that width, without truncating |
| Rwl.WriteAll | pydendro/rwl.py:147-160 | all the samples' lines in order, or `UnicodeEncodeError` when some name is not ASCII |
| Rwl.Write | pydendro/rwl.py:135-162 | `write` returns exactly `WriteSpec`: lines in the requested order, or the encoding error |
| Rwl.WriteFails | pydendro/rwl.py:157-160 | writing fails exactly when some sample's name has a character outside ASCII, whatever the order |
| RwlRoundTrip.ReadAfterWrite | pydendro/rwl.py:77-162 | for names of one to eight ASCII non-blank characters, no name a prefix of the next, values in 0..99999 and `digits` None, 0 or 4, the write succeeds and reading it gives every sample back decoded, in the written order |
| RwlRoundTrip.ReadAfterUnsortedWrite | pydendro/rwl.py:77-162 | with `sort=False` the samples come back in input order, each width a thousandth of its written value |
| LegacyRwl.LegacyRead | pydendro/model/rwl.py:5-37 | the loop returns exactly `LegacyReadSpec`: the tuples of closed samples in file order, or the exception |
| LegacyRwl.FinishScale | pydendro/model/rwl.py:25-31 | the tuple keeps name and year, has one width per value before the terminator, and each width times the terminator's factor gives its value back |
| LegacyRwl.StepCloses | pydendro/model/rwl.py:16-35 | a sample closes on a row exactly when the last accumulated value is negative, and is named after its first row |
| LegacyRwl.BlankLine | pydendro/model/rwl.py:14-23 | a blank line is not skipped: it raises `IndexError` between samples and adds nothing inside one |
| LegacyRwl.TrailingSampleDropped | pydendro/model/rwl.py:13-37 | a sample that never reaches a negative value is silently dropped at the end of the file |
| LegacyRwl.WriteSampleAsWritten | pydendro/model/rwl.py:48-56 | the inner loop as written: a bare head line when the first year is divisible by ten, then the decade-aligned lines |
| LegacyRwl.WriteAsWritten | pydendro/model/rwl.py:40-56 | `write` as written returns exactly `EmitAsWritten`, samples in the given order with the negative terminator |
| LegacyRwl.EmitOffDecade | pydendro/model/rwl.py:50-52 | samples whose first year is not divisible by ten are written without the bare head line |
| LegacyRwl.WriteSample | pydendro/model/rwl.py:48-56 | the inner loop without the first-turn flush emits exactly the decade-aligned lines |
| LegacyRwl.Write | pydendro/model/rwl.py:40-56 | `write` without the bare head lines returns exactly `Emit` |
| LegacyRoundTrip.ReadAfterWrite | pydendro/model/rwl.py:5-56 | reading what the corrected writer emits gives every sample back in order, each width a thousandth of its value |
| LegacyRoundTrip.BareHeadBreaksRead | pydendro/model/rwl.py:23-52 | a first sample whose first year is divisible by ten makes reading the file as written raise `IndexError` |
| LegacyRoundTrip.BareHeadExample | pydendro/model/rwl.py:23-52 | sample `AB` with one ring in 1990: as written the file starts with a bare head and cannot be read; corrected, it reads back |
| Stacks.Stack.constructor | pydendro/model/stack.py:5-10 | a new stack has the given name and `immutable`, no samples, and is not frozen |
| Stacks.Stack.AddSample | pydendro/model/stack.py:17-18 | the sample joins the set, no other name joins or leaves, so adding twice is adding once; the flags stay |
| Stacks.Stack.RemoveSample | pydendro/model/stack.py:21-22 | exactly that sample leaves the set; `KeyError` exactly when it was not a member; the flags stay |
| Stacks.Stack.AddSamples | pydendro/model/stack.py:25-27 | the set becomes the old set together with every name of the input; the flags stay |
| DendroModel.PyDendroModel.constructor | pydendro/ui/model.py:16-20 | no stacks and no samples |
| DendroModel.PyDendroModel.AddStack | pydendro/ui/model.py:25-28 | the stack is filed under its name, replacing any stack of that name; nothing else changes, and every stack stays filed under its own name |
| DendroModel.PyDendroModel.GetStack | pydendro/ui/model.py:44-47 | the stack of that name, or `KeyError` exactly when there is none |
| DendroModel.PyDendroModel.GetSample | pydendro/ui/model.py:57-60 | the sample of that name, or `KeyError` exactly when there is none |
| DendroModel.PyDendroModel.SamplesInStack | pydendro/ui/model.py:63-66 | a list holding each sample of the stack exactly once, or `KeyError` for an unknown stack |
| DendroModel.PyDendroModel.MoveSample | pydendro/ui/model.py:69-78 | the sample leaves the source and is in the destination, even when the source lacked it; moving within one stack removes it; an unknown stack changes nothing; the stacks' sample sets become `Moved` of the old ones |
| DendroModel.Moved | pydendro/ui/model.py:72-78 | on sample sets: source and destination change as stated, every other stack keeps its set, and nothing changes when a stack is unknown |
| DendroModel.MoveBack | pydendro/ui/model.py:69-78 | moving a sample there and back restores the stacks when it was only in the source |
| DendroModel.PyDendroModel.CopySample | pydendro/ui/model.py:81-89 | the sample is added to the destination, and the source and every other stack stay as they were; an unknown stack changes nothing |
| DendroModel.Copied | pydendro/ui/model.py:84-89 | on sample sets: only the destination gains the sample, and only when both stacks are known |
| DendroModel.CopyIdempotent | pydendro/ui/model.py:81-89 | copying twice is copying once |
| DendroModel.StackNameOf | pydendro/ui/model.py:95 | the stack name of `dir/stem.ext` and of `dir/stem` is `stem`: the basename up to its first dot |
| DendroModel.PyDendroModel.CheckSamples | pydendro/ui/model.py:110-115 | the duplicate check returns the first read sample, in file order, whose name is already registered |
| DendroModel.FirstRegisteredMeaning | pydendro/ui/model.py:110-115 | the check finds nothing exactly when no read name is registered, and otherwise names the first one that is |
| DendroModel.PyDendroModel.RegisterSamples | pydendro/ui/model.py:117-119 | every read sample is put under its name, in order; the stacks do not change |
| DendroModel.RegisterKeys | pydendro/ui/model.py:117-119 | registering adds the read names and no other |
| DendroModel.RegisterKeeps | pydendro/ui/model.py:117-119 | an entry whose name was not read stays as it was |
| DendroModel.RegisterLast | pydendro/ui/model.py:117-119 | a read sample is registered under its name unless a later one of the same name replaces it |
| DendroModel.LaterSampleWins | pydendro/ui/model.py:111-119 | two read samples with the same name pass the check, and the second overwrites the first |
| DendroModel.SampleNames | pydendro/ui/model.py:124 | `map(str, samples)` gives one name per read sample, in order |
| DendroModel.PyDendroModel.AddStackFromRwl | pydendro/ui/model.py:92-127 | all or nothing: if the stack name exists or a read name is registered, it warns and changes nothing; a read error propagates; otherwise it registers every read sample and files a fresh stack of the derived name holding exactly the read names |
| Vro.Measurements.constructor | pyvroui.py:65-66 | no core |
| Vro.Measurements.Append | pyvroui.py:68-69 | the new state is `Appended` of the old |
| Vro.Appended | pyvroui.py:68-69 | the measurement ends its core's list, which is created when absent; every other core keeps its list |
| Vro.Measurements.RemoveCore | pyvroui.py:71-77 | the new state is `WithoutCore` of the old |
| Vro.WithoutCore | pyvroui.py:71-77 | exactly that core's entry is gone; an absent core changes nothing |
| Vro.Measurements.RemoveLastMeasurement | pyvroui.py:79-85 | the new state is `WithoutLast` of the old |
| Vro.WithoutLast | pyvroui.py:79-85 | only the last element of that core's list goes; an absent core or an empty list changes nothing |
| Vro.UndoAppend | pyvroui.py:68-85 | removing the last measurement undoes an append to a core that had a list; a new core is left with an empty list |
| Vro.RemoveAppended | pyvroui.py:68-77 | removing a core forgets everything appended to it |
| Vro.AppendsCommute | pyvroui.py:68-69 | appends to two different cores commute |

## Left out

- Text.ParseInt: accepts an optional sign and ASCII decimal digits only. Python 3's `int()` (pydendro/rwl.py:100,106) also accepts underscores between digits (`1_000`) and non-ASCII decimal digits. For such a token `Rwl.Read` reports `ValueError` where the program reads a sample.
- Rwl.Close, Rwl.Decode and LegacyRwl.Finish: widths are exact `real` quotients, not binary floats. Python's `float(x) / 10.0**(d-1)` is rounded to the nearest double.
- Rwl.Write: takes integers already scaled by `10^(digits-1)` and rounded. It has no `digits` argument and always appends the terminator 9999.
  - Python's `round` of a float, and the `digits` argument, are not modelled.
  - So the model does not capture the `OverflowError` of `10.0**(digits-1)` for `digits` of 310 or more.
  - It does not capture the `ZeroDivisionError` once `10.0**(digits-1)` underflows to zero, far below zero.
  - It does not capture that a file written with `digits` other than 4 is read back by `read(digits=None)` with `d = 4`.
- LegacyRwl.Write and LegacyRwl.WriteAsWritten: likewise take scaled integers, with no `digits` argument, and always append -9999.
- Rwl.Order: the `key` is a function to strings. `sorted` at pydendro/rwl.py:142 accepts any key whose values Python can compare (numbers, tuples, ...).
- Rwl.Write: does not model the file system. The lines go to a temporary file (`mkstemp`, `fdopen`) that is then moved over the target (pydendro/rwl.py:144-162). The model returns the lines, or the encoding error; after that error the program leaves the target untouched.
- Rwl.Read: `ValueError` carries only the line number, not the message text with the file name (pydendro/rwl.py:102,108). Opening and reading the file is `read_text`, given as its list of lines.
- Rwl.Ends: the end test looks at the next stripped line as the file holds it, not at its repaired fields (pydendro/rwl.py:113). So a data line followed directly by an empty line closes its sample, as RwlReading.BlankNextCloses states, although the empty line itself is skipped.
- Rwl.Close: Python 3 stores a lazy `map` object as `widths` (pydendro/rwl.py:123), which `len()` and indexing then reject. The model stores the list of widths that the code evidently means.
- LegacyRwl.LegacyRead: the file is opened in text mode (pydendro/model/rwl.py:12,43). The model takes the lines the file iterator yields, line ends included. Python 2 byte strings are not modelled: `write` there has no encoding step and no encoding error.
- The `stacks` and `samples` properties of `PyDendroModel` (pydendro/ui/model.py:37-54) just list the dictionary keys, which are the `stacks.Keys` and `samples.Keys` of the model.
- `PyDendroModel.add_sample` (pydendro/ui/model.py:31-34) refers to an undefined `stack` and raises `NameError` whenever it is called. It is not modelled.
- DendroModel.PyDendroModel.AddStackFromRwl:
  - `rwl.read(filename)` is given as its outcome, the samples or the error, instead of reading a file.
  - `ui.warning` is a result (`DuplicateStack`, `DuplicateSample`) instead of a dialog.
  - `Sample.from_tuple` does not exist on the imported `pydendro.sample.Sample`, so the read samples are registered as the reader returns them, under their names.
- DendroModel.Basename: POSIX paths only (`/` separates directories), as `os.path.basename` behaves there.
- DendroModel.PyDendroModel.SamplesInStack: `list(set)` yields the elements in an order set by hashing. The model promises only that each element appears exactly once, in some order.
- DendroModel.PyDendroModel.MoveSample and CopySample: the bare `except: pass` also swallows errors other than `KeyError`. Nothing else can raise there.
- `Measurements.write`/`load` (pandas and CSV), the Qt user interface, the VRO serial device and its threads, `pydendro/csv.py`, `pydendro/normalize.py` and the sample adapters `pydendro/sample.py` and `pydendro/model/sample.py` are not part of this model.

## Findings

| source | as written | input that shows it | evidently intended | confidence | as-written member | corrected member |
|---|---|---|---|---|---|---|
| pydendro/model/rwl.py:50-52 | the flush before a year divisible by ten also fires on the first turn, so a sample whose first year ends in 0 starts with a bare head line; the reader then takes name and year from it, finds no value, and `widths[-1]` raises `IndexError` (pydendro/model/rwl.py:23) | one sample `AB` with a single ring in 1990: the file starts `AB      1990\r\n` and `read` raises `IndexError` | flush only before a decade year after the first, so every line holds at least one value and the file reads back | not executed | LegacyRwl.WriteAsWritten, LegacyRoundTrip.BareHeadBreaksRead, LegacyRoundTrip.BareHeadExample | LegacyRwl.Write, LegacyRwl.WriteSample, LegacyRwl.Emit, LegacyRoundTrip.ReadAfterWrite |
