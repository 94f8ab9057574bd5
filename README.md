# A verified model of the memory-map tool and the VSlib/Vloop core

This project is a Dafny model of the core of a power-converter control
framework. It has two parts.

**The memory-map resolver and renderer (`mmtool.py`).** The tool reads an
ordered list of sections, each a map from keys to strings. Top-level regions
have an explicit `start`. A nested region (`in = parent`) is bump-allocated
inside its parent: it starts at the parent's `used` cursor, aligned, and an
overflow check runs after every child. The tool then renders the resolved
map, either as a C header of `#define NAME_ADDRESS` / `NAME_SIZE` lines for
the regions matched by glob patterns, or by substituting
`{{name.ADDRESS}}` / `{{name.SIZE}}` placeholders in a template after
resolving alias rows. The model is split in three modules:
- `MmLiterals`: `int(s, 0)`, the `k`/`M` size suffixes, Python's `%` and `align`;
- `MmMap`: the resolver, a pure resolution step with the imperative loop proved against it;
- `MmRender`: the `generate` and `substitute` blocks.

**VSlib and Vloop.** These are the framework's building blocks, with numeric
templates instantiated with integers or reals:
- `RingBufferAllocator`: the static ring-buffer bump allocator.
- `FixedPointType`: Q-format arithmetic on raw values.
- `Fsm`: the generic state-machine engine, with its ordered transition
  evaluation and optional cascade.
- The machines built on the engine: `VsMachine` (the configuration machine)
  and the four Vloop machines `FsmDcdcFloating`, `FsmDcdcCharging`, `FsmAfe`
  and `FsmCrowbar`. Their guards read an abstract record of converter inputs.
- `UserDcFl`: the converter's state codecs and its real-time frame handling.
- `ContainerSearch`: the table search helpers.
- The limit components over integers: `LimitIntegralCheck` (the
  bool-returning `limitIntegral.hpp`), `LimitIntegralClamp` (the clamping
  `limitIntegral.h`) and `LimitRange`. `WindowSum` holds their common sum.
- `RstController`: the RST controller's history bookkeeping over reals.
- The double-buffered `Parameter`, with `CppTypes`, the C++ conversions its
  JSON setter performs.
- `TypeVerification` for the JSON-shape validators, and `TypeLabel` for the
  type labels.
- `Component`: the component hierarchy and its serialisation.
- `Manifest`: the Linux-side tools' manifest walk and command preparation.
  `remote.cpp` and `loader.cpp` run the same algorithm (loader.cpp:23-104
  mirrors remote.cpp:20-162) over different value tables, so one model
  serves both. The tables are the constants `RemoteValues` and
  `LoaderValues`.
- `Publication`: ties `Component` and `Manifest` together. The walk of a
  serialised hierarchy lists exactly the parameters the hierarchy publishes.
- `LoaderUser`: the line-oriented loader.
- `ParameterSetting`: the background command pipeline. It receives,
  validates and executes JSON commands, validates the modified components,
  and swaps or synchronises the parameter buffers.

Supporting modules:
- `Wrappers`: `Option` and `Result`.
- `Json`: an abstract JSON value, in the shape of the library the C++ code
  uses (three number kinds, first-key lookup).
- `PopsStates`: the I-loop and Vloop state enumerations.
- `Arith`: a few integer helpers.

Where an entity's fields are updated in place, the model is a class with
those fields, and each method is proved against a pure function of the old
state. This covers the ring buffer's cursor, a fixed-point variable, the FSM
engine and its machines, the limit components, the RST controller, a
parameter, the component hierarchy and the parameter-setting pipeline. The
properties the code promises are proved about those functions.

## Model

| member | source | states |
|---|---|---|
| `MmLiterals.ParseInt` | mmtool.py:104-105 | `int(text, base=0)`: succeeds exactly when the stripped text, less one leading sign, is an unsigned literal; the error names the text |
| `MmLiterals.Strip` | mmtool.py:104-105 | the white space `int` ignores around a literal: the result is no longer than the text and neither starts nor ends with white space; `StripSurrounded` states that exactly the surrounding white space goes |
| `MmLiterals.StripSurrounded` | mmtool.py:104-105 | a text that neither starts nor ends with white space, surrounded by any white space, strips to that text itself |
| `MmLiterals.ParseAddress` | mmtool.py:104-105 | `parse_address` is `int(spec, base=0)`; `HexRoundTrip` states that a rendered address reads back |
| `MmLiterals.SizeSuffix` | mmtool.py:108-115 | a trailing `k` gives the multiplier 1024, else a trailing `M` gives 1024 * 1024, else 1; the text left is the input without that suffix |
| `MmLiterals.ParseSize` | mmtool.py:108-117 | `parse_size`: the literal before an optional `k` or `M`, scaled by it; `SuffixScales` and `NoSuffixUnscaled` state this for every text |
| `MmLiterals.PyMod` | mmtool.py:97 | Python's `%`: the remainder lies in `[0, a)` for a positive divisor and in `(a, 0]` for a negative one |
| `MmLiterals.Align` | mmtool.py:96-101 | `align(value, alignment)`; `AlignUp`, `AlignDown` and `AlignZero` state its result for a positive, a negative and a zero alignment |
| `MmLiterals.AlignUp` | mmtool.py:96-101 | with a positive alignment the result is the least multiple of it that is not below the value |
| `MmLiterals.AlignDown` | mmtool.py:96-101 | with a negative alignment the result is a multiple of it in `(v + a, v]`: it rounds down |
| `MmLiterals.AlignZero` | mmtool.py:96-97 | an alignment of 0 is a division error |
| `MmLiterals.HexDigitsValue` | mmtool.py:225-226 | the upper-case hexadecimal digits of `n` read back as `n` |
| `MmLiterals.Hex08Digits` | mmtool.py:225-226 | `{n:08X}` has at least eight hexadecimal digits and reads back as `n` |
| `MmLiterals.Hex08` | mmtool.py:225-226 | `{n:08X}`: at least eight upper-case hexadecimal digits, a minus sign and seven for a negative number; `Hex08Digits` and `HexRoundTrip` state that the digits read back as the number |
| `MmLiterals.ParseUnsigned` | mmtool.py:104-105 | an unsigned literal without surrounding space parses to the value of its digits in the base its prefix names |
| `MmLiterals.HexRoundTrip` | mmtool.py:104-105 | a rendered value `0x{n:08X}` parses back as the address `n` |
| `MmLiterals.SuffixScales` | mmtool.py:108-117 | for any text t, `parse_size(t + "k")` is `int(t)` times 1024 and `parse_size(t + "M")` is `int(t)` times 1024 * 1024, and each fails with `int`'s error on t when t is not a literal |
| `MmLiterals.NoSuffixUnscaled` | mmtool.py:108-117 | a text ending in neither `k` nor `M` is read by `int` as a whole, unscaled |
| `MmLiterals.NoGigaSuffix` | mmtool.py:108-117 | `1G` is not a size: there is no `G` suffix and `int` refuses the text |
| `MmLiterals.DocumentedSize` | mmtool.py:108-117 | the sizes as the usage text documents them: every text `parse_size` accepts is read to the same value, so the documented format only adds the `G` suffix; `GigaSuffixScales` states what `G` reads as |
| `MmLiterals.GigaTextRefused` | mmtool.py:108-117 | `parse_size` refuses every text ending in `G`, since `G` is a digit of no base `int` accepts |
| `MmLiterals.StripKeepsLast` | mmtool.py:104-105 | stripping keeps the last character of a text when it is not white space |
| `MmLiterals.DigitRunLast` | mmtool.py:104-105 | the last character of a digit run is a digit of its base |
| `MmLiterals.GigaSuffixScales` | mmtool.py:22 | the documented sizes: `t + "G"` is `int(t)` times 1024 ** 3 (or `int`'s error), and a text not ending in `G` is read as `parse_size` reads it |
| `MmLiterals.OneGiga` | mmtool.py:22 | with the documented suffix, `1G` is 1024 ** 3 |
| `MmMap.Find` | mmtool.py:133-134 | the region a name denotes, and none exactly when no region has that name |
| `MmMap.Get` | mmtool.py:138 | `section.get`: the option text when the section has the key, the default otherwise; `Placement` and `LocatedRefusals` use it for `align` |
| `MmMap.FirstDuplicate` | mmtool.py:121-122 | a repeated section name is found exactly when the names are not distinct |
| `MmMap.NewRegion` | mmtool.py:133-158 | the new region has the section's name, `used == 0`, a parent exactly when `in` is given, starts at `align(parent.start + parent.used, alignment)`, takes its alignment, top-level start and size from the section's options, an unknown parent is the error exactly when `in` names no region, and with a known parent every other outcome is `Located`'s |
| `MmMap.Placement` | mmtool.py:140-149 | a top-level start is the parsed `start` option; a nested one is the parent's aligned end of use; `start` inside a parent, `start` with `align`, a section with neither `in` nor `start`, a zero alignment and a malformed start are each the error exactly in their case, and every refusal names the section |
| `MmMap.Extent` | mmtool.py:151-158 | the size is the parsed `size` option, else `end - start` with `end >= start`; an end before the start, neither option, and a malformed literal are each the error exactly in their case, and every refusal names the section |
| `MmMap.Located` | mmtool.py:138-158 | alignment, start and size of a section whose parent is known, each taken from the section's options as the source reads them; a nested start is the aligned end of what the parent has used |
| `MmMap.LocatedRefusals` | mmtool.py:138-158 | the section is refused for a malformed `align`, for `start` inside a parent, for `start` with `align`, for neither `in` nor `start`, for an end before the start, or for neither `size` nor `end`, each exactly in its case and in the source's order |
| `MmMap.Attach` | mmtool.py:160-171 | the new region is appended, only its parent changes, the parent's `used` becomes `start + size - parent.start`, and the step fails with the overflow error exactly when that exceeds the parent's size |
| `MmMap.ResolveStep` | mmtool.py:133-171 | one iteration of the loop appends exactly one region, named after the section, and keeps the name, parent, start, size and alignment of every earlier region; `PlaceSection` computes it with the parent updated in place |
| `MmMap.Resolve` | mmtool.py:126-172 | a resolved map has one region per section, in declaration order and under the section's name |
| `MmMap.ParseMemoryMapSpec` | mmtool.py:120-172 | `parse_memory_map`: a duplicate name first, then the sections resolved in order; `ParseMemoryMap` computes it and `ResolvedNested` and `ResolvedFromSections` state what a resolved map holds |
| `MmMap.ResolvedFromSections` | mmtool.py:128-171 | in a resolved map every region carries the alignment, start and size its section gives, has a parent exactly when its section says `in`, and that parent has the name `in` gives |
| `MmMap.ResolveErrorSticks` | mmtool.py:128-172 | the first failing section aborts the whole resolution with its error |
| `MmMap.PlaceSection` | mmtool.py:133-171 | the loop body over one section, updating the parent in place, computes the resolution step |
| `MmMap.ParseMemoryMap` | mmtool.py:120-172 | the resolver loop computes the specification: duplicate names refused, then each section placed in order |
| `MmMap.AppendChildNested` | mmtool.py:160-171 | appending a child that starts after what its parent has used and ends within it keeps every region inside its parent and siblings disjoint and in order |
| `MmMap.RegionAfterUsed` | mmtool.py:149 | with a positive alignment a child starts no lower than its parent's start plus `used` |
| `MmMap.AttachNested` | mmtool.py:160-164 | a successful attachment of such a child keeps the arena nested |
| `MmMap.ResolvedNested` | mmtool.py:128-172 | every child of a resolved map lies inside its parent, after its previous sibling, when every size is at least zero and every alignment positive; `NegativeSizeEscapesParent` and `NegativeAlignmentEscapesParent` show the code lets both through, and `IntendedSectionsNest` states nesting for the sections the intended checks accept |
| `MmMap.NegativeAlignmentEscapesParent` | mmtool.py:138-149 | a negative `align`, which `parse_size` accepts, places a child below its parent's start, and the resolver lets it through |
| `MmMap.IntendedAlignment` | mmtool.py:138 | the alignment as evidently intended: the `align` option read as a size and accepted only when it is at least one |
| `MmMap.IntendedAlignmentKeepsChildInside` | mmtool.py:138-149 | with an alignment the intended check accepts, a child never starts below its parent's start plus `used` |
| `MmMap.NegativeAlignmentRefused` | mmtool.py:138 | the intended check refuses the `align = -32` that lets a child escape its parent |
| `MmMap.NegativeSizeEscapesParent` | mmtool.py:151-164 | a negative `size`, which `parse_size` accepts, is let through: `b in a` of size -100 sets the `used` of `a` (at 0, of size 64) to -100, and `c in a` of size 1 then starts at -100, below `a` |
| `MmMap.NegativeSizeStep` | mmtool.py:151-164 | `b in a` of size -100 is accepted, appended after `a`, and sets the `used` of `a` to -100 |
| `MmMap.EscapingStep` | mmtool.py:146-164 | with the `used` of `a` at -100, `c in a` of size 1 is accepted and starts at -100 |
| `MmMap.AttachFirstChild` | mmtool.py:159-172 | a child of the only region that fits is appended, and its parent's `used` becomes the child's end less the parent's start |
| `MmMap.MinusHundred` | mmtool.py:108-117 | `parse_size` reads `-100` as -100 |
| `MmMap.IntendedSize` | mmtool.py:151-152 | the size as evidently intended: the `size` option read by `parse_size` and accepted only when it is at least zero |
| `MmMap.IntendedSectionsNest` | mmtool.py:128-172 | a resolved map whose sections all pass the intended alignment and size checks is nested: every child lies inside its parent |
| `MmMap.NegativeSizeRefused` | mmtool.py:151-152 | the intended check refuses the `size = -100` that lets a later child escape its parent |
| `MmRender.Words` | mmtool.py:212 | `str.split()`: the pieces are non-empty and hold no white space; `WordsOfJoin` states that it gives back words joined by single spaces |
| `MmRender.WordPrefixOfWord` | mmtool.py:212 | a word followed by white space or by nothing is the first piece `split` takes |
| `MmRender.WordsOfJoin` | mmtool.py:212 | `split` undoes joining non-empty words without white space by single spaces: the words come back, in order |
| `MmRender.FnMatch` | mmtool.py:213 | `fnmatchcase`: `*`, `?`, `[...]` and literal characters over the whole name; `LiteralPattern`, `StarMatchesAll` and `PrefixPattern` state what it matches |
| `MmRender.Lines` | mmtool.py:234 | `str.split("\n")`: at least one piece, none holding a newline |
| `MmRender.LinesJoin` | mmtool.py:234 | joining the pieces with newlines gives the text back |
| `MmRender.SanitizeShape` | mmtool.py:220 | every dot of the name becomes an underscore and nothing else changes |
| `MmRender.Sanitize` | mmtool.py:220 | `replace(".", "_")` keeps the length and leaves no dot; `SanitizeShape` states it character by character |
| `MmRender.LJustShape` | mmtool.py:223 | `ljust(32)`: the symbol, then spaces up to at least 32 columns |
| `MmRender.LJust` | mmtool.py:223 | `ljust`: the text, then spaces up to the width; `LJustShape` states its length, prefix and padding |
| `MmRender.Define` | mmtool.py:222-223 | a `#define` line: the symbol, padded with spaces to at least 32 columns, then a space, the value and a newline |
| `MmRender.HexValue` | mmtool.py:225-226 | the value `0x{n:08X}` writes: `0x` and then the eight-digit form of the number; `HexValuePlain` states that it holds no braces |
| `MmRender.RegionDefines` | mmtool.py:219-226 | the two lines of one region: its sanitised name with `_ADDRESS` and its start, then with `_SIZE` and its size |
| `MmRender.Defines` | mmtool.py:218-226 | the lines of the selected regions, region after region in the given order; `WriteRegions` states that the loop writes exactly these |
| `MmRender.LiteralPattern` | mmtool.py:213 | a pattern without wildcards matches exactly the name it spells |
| `MmRender.StarMatchesAll` | mmtool.py:213 | `*` matches every name |
| `MmRender.PrefixPattern` | mmtool.py:213 | `prefix*` matches exactly the names starting with the prefix |
| `MmRender.LessIrreflexive` | mmtool.py:218 | the string order of `sorted` is irreflexive |
| `MmRender.LessTransitive` | mmtool.py:218 | the string order is transitive |
| `MmRender.LessTotal` | mmtool.py:218 | any two different strings are ordered |
| `MmRender.InsertSorted` | mmtool.py:218 | inserting a name into a strictly sorted sequence keeps it strictly sorted and adds exactly that name |
| `MmRender.SortedUnique` | mmtool.py:218 | a strictly sorted sequence is determined by its elements |
| `MmRender.SortedOf` | mmtool.py:218 | `sorted` of a set: strictly increasing and holding exactly the set's names |
| `MmRender.KindOf` | mmtool.py:195-227 | a section generates iff its name starts with `generate`, substitutes iff it starts with `substitute` and not `generate` |
| `MmRender.FinalName` | mmtool.py:200-202 | the final path component as pathlib parses it: it holds no `/`; `FinalNameOfComponent` states that it is the name itself, bare or behind a directory |
| `MmRender.FinalNameOfComponent` | mmtool.py:200-202 | a bare file name, and the same name behind any directory, both have that name as their final component |
| `MmRender.PathSuffix` | mmtool.py:202 | `Path.suffix`: empty, or a dot followed by at least one character and no further dot or slash |
| `MmRender.TrailingSlashSuffix` | mmtool.py:200-202 | a trailing `/`, or a trailing `/.` after a non-empty path, does not change the suffix |
| `MmRender.HeaderPathWithSlash` | mmtool.py:202 | `out.h/` has the suffix `.h`, so it is accepted as a header path |
| `MmRender.Header` | mmtool.py:206 | the fixed banner of a generated header, naming the input file between its two fixed parts |
| `MmRender.Picked` | mmtool.py:219 | each selected name denotes a region of that name |
| `MmRender.Matches` | mmtool.py:213 | a pattern only matches names of regions |
| `MmRender.Matched` | mmtool.py:211-216 | the selection is the union of every pattern's matches, and it succeeds iff every pattern matches some region |
| `MmRender.MatchedErrorSticks` | mmtool.py:214-215 | the first pattern that matches nothing aborts the generation |
| `MmRender.MatchAll` | mmtool.py:211-216 | the pattern loop computes the selection and its error |
| `MmRender.SortNames` | mmtool.py:218 | the sorting loop yields the sorted enumeration of the selected names |
| `MmRender.WriteRegions` | mmtool.py:218-226 | the writing loop appends the definitions of the selected regions in sorted name order |
| `MmRender.WriteAll` | mmtool.py:223 | writing the parts one after the other leaves the file holding what it held, then every part in order |
| `MmRender.Generate` | mmtool.py:199-226 | the `generate` block computes its specification: suffix check, header, selection, sorted definitions |
| `MmRender.GenerateSpec` | mmtool.py:199-226 | the header contents and the error of a `generate` block: a missing `path`, an unsupported suffix, a missing `regions` or an unmatched pattern, otherwise the header then the sorted definitions; `Generate` computes it |
| `MmRender.Assign` | mmtool.py:237 | dictionary assignment binds the name and leaves every other name's binding as it was |
| `MmRender.RegionTable` | mmtool.py:232 | `{**regions}`: every region under its own name, in declaration order |
| `MmRender.AliasRow` | mmtool.py:236-237 | an alias row of two words binds `to` to what `from` denotes in the table built so far |
| `MmRender.ApplyAliases` | mmtool.py:232-237 | the alias rows applied in order, empty rows skipped; `AliasesErrorSticks` and `AliasRendersLikeSource` state the error and the binding |
| `MmRender.AliasesErrorSticks` | mmtool.py:234-237 | the first alias row with an unknown `from` aborts the substitution |
| `MmRender.AliasRendersLikeSource` | mmtool.py:236-237 | after a row `to from` of two words the name `to` denotes exactly the region `from` does |
| `MmRender.Lookup` | mmtool.py:237 | `aliased_regions[from_]`: none iff no entry of the table has that name; `LookupSnoc` states that a later entry is found under its own name |
| `MmRender.ReplaceAbsent` | mmtool.py:243-244 | `replace` leaves text without the placeholder unchanged |
| `MmRender.ReplaceAll` | mmtool.py:243-244 | Python's `str.replace`: replacing the pattern by itself changes nothing; `ReplaceAbsent` shows text without the pattern is kept |
| `MmRender.SubstituteAll` | mmtool.py:241-244 | every entry's two placeholders replaced, entry after entry in table order; `PlaceholdersRendered` and `UnknownPlaceholdersKept` state the outcome |
| `MmRender.PlaceholdersRendered` | mmtool.py:241-244 | for brace-free names, a template cut into plain text and `{{name.FIELD}}` holes comes out with every hole of a known name and field replaced by that region's start or size as `0x` and at least eight upper-case hexadecimal digits, every other piece unchanged |
| `MmRender.UnknownPlaceholdersKept` | mmtool.py:242-244 | a template that holds no placeholder of a known name comes out unchanged |
| `MmRender.Substitute` | mmtool.py:227-246 | the `substitute` block computes its specification: aliases, then every entry's placeholders replaced in table order |
| `MmRender.SubstituteSpec` | mmtool.py:227-246 | a `substitute` block: a missing `in` or `out` is the error, then the aliases, then every entry's placeholders replaced in table order; `Substitute` computes it |
| `MmRender.ApplyAliasRows` | mmtool.py:232-237 | the alias loop over the rows computes `ApplyAliases` of the regions and the rows: each non-empty row copies a known region to its alias, a malformed row or an unknown region is the error |
| `MmRender.ReplacePlaceholders` | mmtool.py:241-244 | the replacement loop computes `SubstituteAll`: every entry's address and size placeholders are replaced, entry after entry in table order |
| `RingBufferAllocator.AdjustmentValue` | source/utils/ringBufferAllocator.hpp:71-76 | the adjustment is 0 on an aligned cursor and `alignment - position % alignment` otherwise |
| `RingBufferAllocator.Adjustment` | source/utils/ringBufferAllocator.hpp:71-77 | `calculate_adjustment` is below the alignment; `AdjustmentLeast` shows it is the least number of bytes that aligns the cursor |
| `RingBufferAllocator.AdjustmentLeast` | source/utils/ringBufferAllocator.hpp:71-76 | the adjustment is the least number of bytes that aligns the cursor, and below the alignment |
| `RingBufferAllocator.AlignedNeedsNone` | source/utils/ringBufferAllocator.hpp:71-76 | an aligned cursor, the start of the buffer among them, needs no adjustment |
| `RingBufferAllocator.AllocateSucceedsIff` | source/utils/ringBufferAllocator.hpp:29-53 | an allocation succeeds iff the requested bytes plus the adjustment are strictly below the buffer size, so a request of exactly the buffer size is refused |
| `RingBufferAllocator.AllocateSpec` | source/utils/ringBufferAllocator.hpp:29-47 | a served block ends at the new cursor, strictly inside the buffer; `AllocateSucceedsIff` and `AllocationPlacement` state when it is served and where |
| `RingBufferAllocator.RequestBytes` | source/utils/ringBufferAllocator.hpp:29 | `sizeof(T) * count` in unbounded arithmetic; `RequestWrapsToZero` shows the `uint64_t` product wrapping |
| `RingBufferAllocator.AllocationPlacement` | source/utils/ringBufferAllocator.hpp:36-47 | a served block is aligned, ends strictly inside the buffer, sits at the adjusted cursor unless it would reach the end (then at the aligned start), and the cursor moves just past it |
| `RingBufferAllocator.FailureKeepsAdjustment` | source/utils/ringBufferAllocator.hpp:30-36 | a refused request still leaves the cursor advanced by the adjustment |
| `RingBufferAllocator.ClearedServesStart` | source/utils/ringBufferAllocator.hpp:57-60 | from a cleared cursor every request that fits is served at offset 0 |
| `RingBufferAllocator.RingBuffer.constructor` | source/utils/ringBufferAllocator.hpp:64 | the cursor starts at 0 |
| `RingBufferAllocator.RingBuffer.Allocate` | source/utils/ringBufferAllocator.hpp:27-54 | `do_allocate` updates the cursor in place and returns the offset or `bad_alloc` as the allocation specification says |
| `RingBufferAllocator.RingBuffer.Clear` | source/utils/ringBufferAllocator.hpp:57-60 | `clear` puts the cursor back at 0 |
| `RingBufferAllocator.MaxSize` | source/utils/ringBufferAllocator.hpp:136-139 | `max_size` is the largest number of objects of that size that fit in the buffer |
| `RingBufferAllocator.SamePoolEquivalence` | source/utils/ringBufferAllocator.hpp:93-115 | allocator equality is an equivalence that ignores the value type and survives rebinding |
| `RingBufferAllocator.RequestWrapsToZero` | source/utils/ringBufferAllocator.hpp:29-36 | in `uint64_t` the request of 2^61 eight-byte objects is 0 bytes and is served at offset 0, where the exact product is refused |
| `RingBufferAllocator.LargeRequestRefused` | source/utils/ringBufferAllocator.hpp:36-53 | six 4-byte objects are refused by a 20-byte pool |
| `RingBufferAllocator.LastSlotWraps` | source/utils/ringBufferAllocator.hpp:38-42 | a block that would reach the end of the pool is placed at its start |
| `Arith.Pow2` | source/vslib/utils/inc/fixedPointType.hpp:161-164 | `T(1) << n` on unbounded integers: at least 1 |
| `Arith.Pow2Add` | source/vslib/utils/inc/fixedPointType.hpp:161-164 | shifting by a and then by b is shifting by a + b: `2^a * 2^b == 2^(a + b)` |
| `FixedPointType.FromInt` | source/vslib/utils/inc/fixedPointType.hpp:50-53 | `FixedPoint(int)` stores the integer as the raw value, unshifted |
| `FixedPointType.Add` | source/vslib/utils/inc/fixedPointType.hpp:106-111 | `+` on raw values: subtracting the addend gives the other operand back |
| `FixedPointType.Sub` | source/vslib/utils/inc/fixedPointType.hpp:116-121 | `-` on raw values: the result is below the minuend exactly when the subtrahend is positive |
| `FixedPointType.Mul` | source/vslib/utils/inc/fixedPointType.hpp:126-131 | `*` gives zero when either operand is zero; `MulRoundsToNearest` states the rounding |
| `FixedPointType.Div` | source/vslib/utils/inc/fixedPointType.hpp:136-141 | `/` of a zero dividend is zero, and a negative quotient needs operands of opposite signs; `DivTruncates` states the truncation |
| `FixedPointType.AddSubInverse` | source/vslib/utils/inc/fixedPointType.hpp:106-121 | `+` and `-` act exactly on raw values and undo each other |
| `FixedPointType.AddMonotone` | source/vslib/utils/inc/fixedPointType.hpp:101-111 | the order, that of the raw values, is kept by adding the same value on both sides |
| `FixedPointType.MulRoundsToNearest` | source/vslib/utils/inc/fixedPointType.hpp:126-131 | the raw product is the exact product rounded to the nearest multiple of 2^fb, halves up |
| `FixedPointType.MulOne` | source/vslib/utils/inc/fixedPointType.hpp:126-131 | multiplying by the raw representation of one, on either side, returns the other operand |
| `FixedPointType.MulMonotone` | source/vslib/utils/inc/fixedPointType.hpp:101-131 | multiplying by a non-negative value keeps the order |
| `FixedPointType.DivOne` | source/vslib/utils/inc/fixedPointType.hpp:136-141 | dividing by one returns the dividend |
| `FixedPointType.DivTruncates` | source/vslib/utils/inc/fixedPointType.hpp:136-141 | the raw quotient of `(a << fb) / b` is truncated toward zero: the remainder is smaller than the divisor and has the dividend's sign |
| `FixedPointType.MaximumInRawUnits` | source/vslib/utils/inc/fixedPointType.hpp:152-153 | `maximum_value` times 2^fb is 2^(8 sizeof(T) - 1), the bound of the signed raw value |
| `FixedPointType.FixedPointVar.constructor` | source/vslib/utils/inc/fixedPointType.hpp:26-29 | the default constructor stores raw 0 |
| `FixedPointType.FixedPointVar.AddAssign` | source/vslib/utils/inc/fixedPointType.hpp:70-73 | `+=` stores what `+` returns |
| `FixedPointType.FixedPointVar.SubAssign` | source/vslib/utils/inc/fixedPointType.hpp:78-81 | `-=` stores what `-` returns |
| `FixedPointType.FixedPointVar.MulAssign` | source/vslib/utils/inc/fixedPointType.hpp:86-89 | `*=` stores what `*` returns |
| `FixedPointType.FixedPointVar.DivAssign` | source/vslib/utils/inc/fixedPointType.hpp:94-97 | `/=` stores what `/` returns |
| `Fsm.To` | source/utils/fsm.hpp:35-40 | a result built from a state is not the default, names that state and carries the given cascade flag |
| `Fsm.TransitionResult.IsDefault` | source/utils/fsm.hpp:53-56 | `isDefault`: the result means "no transition"; `To` states that a result built from a state never is |
| `Fsm.EmptyState` | source/utils/fsm.hpp:201-202 | the default `StateObj`, with no state function and no transitions; `Touch` and `UnregisteredStays` state when it is inserted and that it changes nothing |
| `Fsm.Evaluate` | source/utils/fsm.hpp:153-174 | the transition loop's outcome: the first non-default result in registration order, or the default; `FirstDecisiveWins` and `EvaluateAt` state it |
| `Fsm.Run` | source/utils/fsm.hpp:136-181 | `update` as repeated passes while a changing result asks to cascade, bounded by fuel; `NoCascadeSinglePass`, `AtMostOneChange` and `QuietUpdate` state what it does |
| `Fsm.Touch` | source/utils/fsm.hpp:153-192 | `m_states[s]` keeps every entry and inserts an empty one for a state not registered |
| `Fsm.ExecuteState` | source/utils/fsm.hpp:189-197 | running the state function keeps the state and registers the current state if it was not |
| `Fsm.FirstDecisiveWins` | source/utils/fsm.hpp:153-174 | evaluation is the default iff every transition declines, and otherwise the first non-default result in registration order |
| `Fsm.EvaluateAt` | source/utils/fsm.hpp:153-174 | when transitions before `i` decline and `i` decides, its result is the outcome |
| `Fsm.EvaluateShort` | source/utils/fsm.hpp:153-174 | the outcome over one to three transitions, spelled out |
| `Fsm.Cycle` | source/utils/fsm.hpp:141-180 | one pass keeps the state unless the evaluated result changes it, and repeats only after a change |
| `Fsm.Register` | source/utils/fsm.hpp:117-120 | `emplace`: a state already registered keeps its first entry; other entries are untouched |
| `Fsm.NoCascadeSinglePass` | source/utils/fsm.hpp:180 | without a cascade request `update` is a single pass |
| `Fsm.AtMostOneChange` | source/utils/fsm.hpp:180 | a machine whose transitions never cascade changes state at most once per `update` |
| `Fsm.SelfTransitionStops` | source/utils/fsm.hpp:158-173 | a decisive result naming the current state ends `update` without a change |
| `Fsm.UnregisteredStays` | source/utils/fsm.hpp:153-197 | an unregistered current state has no transitions and no function: `update` keeps it and only inserts an empty entry |
| `Fsm.LateRegistrationIgnored` | source/utils/fsm.hpp:117-153 | after `update` visited an unregistered state, `addState` for it no longer takes effect |
| `Fsm.StateFunctionOfTarget` | source/utils/fsm.hpp:176-179 | with the state function last, the function that runs is that of the state reached |
| `Fsm.QuietUpdate` | source/utils/fsm.hpp:136-181 | when state functions leave the environment alone, `update` moves to the evaluated target or stays, in one pass unless it cascades |
| `Fsm.QuietTableUpdate` | source/utils/fsm.hpp:136-181 | the same for a machine registered from a table of states |
| `Fsm.Engine.constructor` | source/utils/fsm.hpp:101-106 | the machine starts in the starting state with no states registered |
| `Fsm.Engine.AddState` | source/utils/fsm.hpp:117-120 | `addState` registers the entry as `emplace` does and changes nothing else |
| `Fsm.Engine.AddAll` | source/utils/fsm.hpp:117-120 | a sequence of `addState` calls registers the table, first entry of each state winning |
| `Fsm.Engine.Reset` | source/utils/fsm.hpp:183-186 | `reset` restores the starting state and keeps the registrations |
| `Fsm.Engine.ExecuteStateNow` | source/utils/fsm.hpp:189-197 | `executeState` runs the current state's function, if any |
| `Fsm.Engine.EvaluateTransitions` | source/utils/fsm.hpp:153-174 | the `for` loop returns the first decisive result and whether it changes the state |
| `Fsm.Engine.Pass` | source/utils/fsm.hpp:141-180 | one pass of the `do` body computes the cycle and the loop condition |
| `Fsm.Engine.Update` | source/utils/fsm.hpp:136-181 | `update` computes the run of cycles (bounded by fuel) |
| `Fsm.Engine.GetState` | source/utils/fsm.hpp:125-128 | `getState`: the current state; `Update` states how it moves |
| `VsMachine.TableComplete` | source/vslib/utils/inc/state.hpp:57-60 | the four states are all registered |
| `VsMachine.NewSettings` | source/vslib/utils/inc/state.hpp:125 | `checkNewSettingsAvailable`: a message is waiting in the command queue |
| `VsMachine.OnInitialization` | source/vslib/utils/inc/state.hpp:84-89 | `onInitialization` notifies the payload start once more and sets `m_init_done`; nothing else changes |
| `VsMachine.OnUnconfigured` | source/vslib/utils/inc/state.hpp:91-95 | `onUnconfigured` uploads the parameter map once more; nothing else changes |
| `VsMachine.OnConfiguring` | source/vslib/utils/inc/state.hpp:97-102 | `onConfiguring` receives once: a waiting message is taken off the queue and may complete the parameters' initialisation; with none waiting only the queue read happens |
| `VsMachine.OnConfigured` | source/vslib/utils/inc/state.hpp:104-121 | `onConfigured` runs the user `init()` only the first time and the background task every time; nothing else changes |
| `VsMachine.ToConfiguring` | source/vslib/utils/inc/state.hpp:123-128 | `toConfiguring` can only ask for `configuring` with cascade |
| `VsMachine.ToUnconfiguredFromInit` | source/vslib/utils/inc/state.hpp:136-139 | `toUnconfiguredFromInit` always decides, for `unconfigured` or `initialization` |
| `VsMachine.ToUnconfigured` | source/vslib/utils/inc/state.hpp:141-146 | `toUnconfigured` always decides: `configured`, or `unconfigured` with cascade |
| `VsMachine.ToConfigured` | source/vslib/utils/inc/state.hpp:148-153 | `toConfigured` always decides: `configured`, or `unconfigured` with cascade |
| `VsMachine.ToInitialization` | source/vslib/utils/inc/state.hpp:130-134 | `toInitialization` always decides `initialization`; the source registers it with no state, and `Table` does the same |
| `VsMachine.Table` | source/vslib/utils/inc/state.hpp:57-60 | every state is registered with a state function and at least one transition |
| `VsMachine.VSMachine.constructor` | source/vslib/utils/inc/state.hpp:45-62 | the machine starts in `initialization`, state function last, with the four-state table, the registry's answer and the queue of waiting messages |
| `VsMachine.VSMachine.Arrive` | source/vslib/utils/inc/state.hpp:123-128 | messages join the command queue behind those already waiting; nothing else changes |
| `VsMachine.VSMachine.Update` | source/vslib/utils/inc/state.hpp:64-67 | `update` is the engine's run; `FirstConfiguration` and `ConstructedMachineConfigures` show a first message taking the machine out of `unconfigured` |
| `VsMachine.VSMachine.GetState` | source/vslib/utils/inc/state.hpp:69-72 | the state of the engine inside; `Update` and `ConstructedMachineConfigures` state how it moves |
| `VsMachine.FirstTwoUpdates` | source/vslib/utils/inc/state.hpp:84-139 | the first `update` stays in `initialization` and runs `onInitialization`; the second moves to `unconfigured` |
| `VsMachine.ConfigurationVerdict` | source/vslib/utils/inc/state.hpp:141-153 | `toUnconfigured` and `toConfigured` agree: `configured` iff every parameter is initialised, else `unconfigured` with cascade |
| `VsMachine.ConfiguringFirstDecides` | source/vslib/utils/inc/state.hpp:141-146 | in `configuring` the first transition always decides, so `toConfigured` is never consulted |
| `VsMachine.ConfiguringOnNewSettings` | source/vslib/utils/inc/state.hpp:123-128 | `toConfiguring` fires, with cascade, iff new settings are available |
| `VsMachine.UnconfiguredCascades` | source/vslib/utils/inc/state.hpp:123-128 | leaving `unconfigured` on new settings runs `onConfiguring` in the same pass and asks for another |
| `VsMachine.ConfiguredOnlyToConfiguring` | source/vslib/utils/inc/state.hpp:60 | from `configured` one pass stays or moves to `configuring`, the latter iff new settings are available |
| `VsMachine.Reconfigure` | source/vslib/utils/inc/state.hpp:97-128 | with new settings and every parameter initialised, an `update` in `configured` processes the commands and lands back in `configured` |
| `VsMachine.FirstConfiguration` | source/vslib/utils/inc/state.hpp:97-153 | from `unconfigured` with one message waiting and the parameters not yet initialised, `update` takes the message; it lands in `configured` (user `init()` run if it had not been) iff the message completes the initialisation, else back in `unconfigured` with the map uploaded twice |
| `VsMachine.ConstructedMachineConfigures` | source/vslib/utils/inc/state.hpp:45-153 | a new machine with one message waiting: two updates bring it to `unconfigured`, the third to `configured` iff the message completes the initialisation |
| `VsMachine.StateFunctionsKeepInitOnce` | source/vslib/utils/inc/state.hpp:104-121 | every state function keeps the user `init()` guard consistent |
| `VsMachine.CycleKeepsInitOnce` | source/vslib/utils/inc/state.hpp:104-121 | one pass keeps it consistent |
| `VsMachine.UserInitAtMostOnce` | source/vslib/utils/inc/state.hpp:104-121 | however often `update` runs, the user `init()` runs at most once |
| `FsmDcdcFloating.DCDCFloatingStateMachine.constructor` | source/vloop/fsm_dcdc_floating.cpp:7-25 | the machine starts in FO, state function last, with the nine-state table |
| `FsmDcdcFloating.ToFaultOff` | source/vloop/fsm_dcdc_floating.cpp:68-78 | `toFaultOff` can only name FO, without cascade |
| `FsmDcdcFloating.ToFaultStopping` | source/vloop/fsm_dcdc_floating.cpp:80-90 | `toFaultStopping` can only name FS, without cascade |
| `FsmDcdcFloating.ToOff` | source/vloop/fsm_dcdc_floating.cpp:92-102 | `toOff` can only name OF, without cascade |
| `FsmDcdcFloating.ToStopping` | source/vloop/fsm_dcdc_floating.cpp:104-129 | `toStopping` can only name SP or FS, without cascade |
| `FsmDcdcFloating.ToStarting` | source/vloop/fsm_dcdc_floating.cpp:131-141 | `toStarting` can only name ST, without cascade |
| `FsmDcdcFloating.ToBlocking` | source/vloop/fsm_dcdc_floating.cpp:143-153 | `toBlocking` can only name BK, without cascade |
| `FsmDcdcFloating.ToCharging` | source/vloop/fsm_dcdc_floating.cpp:155-165 | `toCharging` can only name CH, without cascade |
| `FsmDcdcFloating.ToCharged` | source/vloop/fsm_dcdc_floating.cpp:167-184 | `toCharged` can only name CD, without cascade |
| `FsmDcdcFloating.ToDirect` | source/vloop/fsm_dcdc_floating.cpp:186-196 | `toDirect` can only name DT, without cascade |
| `FsmDcdcFloating.Table` | source/vloop/fsm_dcdc_floating.cpp:15-23 | every state is registered with the entry its `addState` call gives it |
| `FsmDcdcFloating.Entry` | source/vloop/fsm_dcdc_floating.cpp:15-23 | the state function and the transitions, in order, that each `addState` call registers; `Table` states that every state gets its entry |
| `FsmDcdcFloating.NextState` | source/vloop/fsm_dcdc_floating.cpp:68-196 | the reference next state of the floating DC-DC machine, guard by guard in registration order; `UpdateIsNextState` ties the engine to it |
| `FsmDcdcFloating.DCDCFloatingStateMachine.Update` | source/vloop/fsm_dcdc_floating.cpp:27-30 | `update` moves to the reference next state of the readings |
| `FsmDcdcFloating.DCDCFloatingStateMachine.GetState` | source/vloop/fsm_dcdc_floating.cpp:32-35 | `getState`: the state of the engine inside; `Update` states that it moves to the reference next state |
| `FsmDcdcFloating.UpdateIsNextState` | source/vloop/fsm_dcdc_floating.cpp:68-196 | the engine running the table computes the reference next state in one pass, whatever the fuel |
| `FsmDcdcFloating.Listed` | source/vloop/fsm_dcdc_floating.cpp:15-66 | every state is registered, each with a state function that changes nothing |
| `FsmDcdcFloating.EvaluatesToNextState` | source/vloop/fsm_dcdc_floating.cpp:68-196 | the first decisive guard of each state names the reference next state, and no guard cascades |
| `FsmDcdcFloating.FaultStatesExits` | source/vloop/fsm_dcdc_floating.cpp:68-102 | from FO the only move is to OF, iff the I-loop is OF; from FS the only move is to FO, iff Vdc is below the minimum |
| `FsmDcdcFloating.FaultHasPriority` | source/vloop/fsm_dcdc_floating.cpp:80-90 | outside FO and FS a gateware fault, an interlock, an I-loop in FS or a PFM in FO forces FS first |
| `FsmDcdcFloating.StopRequests` | source/vloop/fsm_dcdc_floating.cpp:104-129 | an I-loop in SP gives SP; otherwise an HMI stop gives SP from CH, CD or DT and FS from the other states |
| `FsmDcdcFloating.ForwardTransitions` | source/vloop/fsm_dcdc_floating.cpp:143-196 | ST to BK iff outputs ready and Vout below its threshold; BK to CH iff unblock; CH to CD iff Vdc reaches the charged threshold; DT to CD iff the mask is 0; CD to DT iff it is 1 |
| `FsmDcdcCharging.DCDCChargerStateMachine.constructor` | source/vloop/fsm_dcdc_charging.cpp:6-23 | the machine starts in FO, state function last, with the seven-state table |
| `FsmDcdcCharging.ToFaultOff` | source/vloop/fsm_dcdc_charging.cpp:64-71 | `toFaultOff` can only name FO, without cascade |
| `FsmDcdcCharging.ToFaultStopping` | source/vloop/fsm_dcdc_charging.cpp:73-81 | `toFaultStopping` can only name FS, without cascade |
| `FsmDcdcCharging.ToOff` | source/vloop/fsm_dcdc_charging.cpp:83-91 | `toOff` can only name OF, without cascade |
| `FsmDcdcCharging.ToStopping` | source/vloop/fsm_dcdc_charging.cpp:93-100 | `toStopping` can only name SP, without cascade |
| `FsmDcdcCharging.ToStarting` | source/vloop/fsm_dcdc_charging.cpp:102-109 | `toStarting` can only name ST, without cascade |
| `FsmDcdcCharging.ToBlocking` | source/vloop/fsm_dcdc_charging.cpp:111-127 | `toBlocking` can only name BK, without cascade |
| `FsmDcdcCharging.ToDirect` | source/vloop/fsm_dcdc_charging.cpp:129-136 | `toDirect` can only name DT, without cascade |
| `FsmDcdcCharging.Table` | source/vloop/fsm_dcdc_charging.cpp:15-21 | every state is registered with the entry its `addState` call gives it |
| `FsmDcdcCharging.Entry` | source/vloop/fsm_dcdc_charging.cpp:15-21 | the state function and the transitions, in order, that each `addState` call registers; `Table` states that every state gets its entry |
| `FsmDcdcCharging.NextState` | source/vloop/fsm_dcdc_charging.cpp:64-136 | the reference next state of the charging DC-DC machine, guard by guard in registration order; `UpdateIsNextState` ties the engine to it |
| `FsmDcdcCharging.DCDCChargerStateMachine.Update` | source/vloop/fsm_dcdc_charging.cpp:25-28 | `update` moves to the reference next state of the readings |
| `FsmDcdcCharging.DCDCChargerStateMachine.GetState` | source/vloop/fsm_dcdc_charging.cpp:30-33 | `getState`: the state of the engine inside; `Update` states that it moves to the reference next state |
| `FsmDcdcCharging.UpdateIsNextState` | source/vloop/fsm_dcdc_charging.cpp:64-136 | the engine running the table computes the reference next state in one pass, whatever the fuel |
| `FsmDcdcCharging.Listed` | source/vloop/fsm_dcdc_charging.cpp:15-62 | every state is registered, each with a state function that changes nothing |
| `FsmDcdcCharging.EvaluatesToNextState` | source/vloop/fsm_dcdc_charging.cpp:64-136 | the first decisive guard of each state names the reference next state, and no guard cascades |
| `FsmDcdcCharging.FaultStatesExits` | source/vloop/fsm_dcdc_charging.cpp:64-90 | FO can only go to OF, iff the I-loop is OF; FS can only go to FO, iff Vdc is below the minimum |
| `FsmDcdcCharging.FaultHasPriority` | source/vloop/fsm_dcdc_charging.cpp:73-81 | in OF, SP, ST, BK and DT a fault condition forces FS before any other guard |
| `FsmDcdcCharging.StopRequests` | source/vloop/fsm_dcdc_charging.cpp:93-100 | an I-loop in SP or an HMI stop leads to SP from ST, BK and DT |
| `FsmDcdcCharging.ForwardTransitions` | source/vloop/fsm_dcdc_charging.cpp:111-136 | ST to BK iff outputs ready and Vout at most its threshold; DT to BK iff every floating Vloop is in BK and their Vdc is below the minimum; BK to DT iff unblock and mask 1 |
| `FsmAfe.AFEStateMachine.constructor` | source/vloop/fsm_afe.cpp:6-23 | the machine starts in FO, state function last, with the seven-state table |
| `FsmAfe.ToFaultOff` | source/vloop/fsm_afe.cpp:58-67 | `toFaultOff` can only name FO, without cascade |
| `FsmAfe.ToFaultStopping` | source/vloop/fsm_afe.cpp:69-78 | `toFaultStopping` can only name FS, without cascade |
| `FsmAfe.ToOff` | source/vloop/fsm_afe.cpp:80-90 | `toOff` can only name OF, without cascade |
| `FsmAfe.ToStopping` | source/vloop/fsm_afe.cpp:92-99 | `toStopping` can only name SP, without cascade |
| `FsmAfe.ToPrecharging` | source/vloop/fsm_afe.cpp:101-108 | `toPrecharging` can only name PH, without cascade |
| `FsmAfe.ToPrecharged` | source/vloop/fsm_afe.cpp:110-118 | `toPrecharged` can only name PD, without cascade |
| `FsmAfe.ToOn` | source/vloop/fsm_afe.cpp:120-127 | `toOn` can only name ON, without cascade |
| `FsmAfe.Table` | source/vloop/fsm_afe.cpp:15-21 | every state is registered with the entry its `addState` call gives it |
| `FsmAfe.Entry` | source/vloop/fsm_afe.cpp:15-21 | the state function and the transitions, in order, that each `addState` call registers; `Table` states that every state gets its entry |
| `FsmAfe.NextState` | source/vloop/fsm_afe.cpp:58-127 | the reference next state of the AFE machine, guard by guard in registration order; `UpdateIsNextState` ties the engine to it |
| `FsmAfe.AFEStateMachine.Update` | source/vloop/fsm_afe.cpp:25-28 | `update` moves to the reference next state of the readings |
| `FsmAfe.AFEStateMachine.GetState` | source/vloop/fsm_afe.cpp:30-33 | `getState`: the state of the engine inside; `Update` states that it moves to the reference next state |
| `FsmAfe.UpdateIsNextState` | source/vloop/fsm_afe.cpp:58-127 | the engine running the table computes the reference next state in one pass, whatever the fuel |
| `FsmAfe.Listed` | source/vloop/fsm_afe.cpp:15-56 | every state is registered, each with a state function that changes nothing |
| `FsmAfe.EvaluatesToNextState` | source/vloop/fsm_afe.cpp:58-127 | the first decisive guard of each state names the reference next state, and no guard cascades |
| `FsmAfe.PowerUpPath` | source/vloop/fsm_afe.cpp:17-21 | PH is entered only from OF, PD only from PH and ON only from PD: the only way from OF to ON is OF, PH, PD, ON |
| `FsmAfe.FaultOffGuard` | source/vloop/fsm_afe.cpp:58-67 | FS goes only to FO, iff Vdc is below the minimum with CB, K1 and K2 open |
| `FsmAfe.FaultHasPriority` | source/vloop/fsm_afe.cpp:69-78 | outside FO and FS a fault forces FS first, and in PD an I-loop in SP is such a fault |
| `FsmAfe.ForwardTransitions` | source/vloop/fsm_afe.cpp:92-127 | PH to PD iff CB closed, K1 and K3 open and Vdc at the charger minimum; PD to ON iff unblock; ON to SP iff the I-loop is SP |
| `FsmCrowbar.CWBStateMachine.constructor` | source/vloop/fsm_crowbar.cpp:6-17 | the machine starts in FO with the two-state table |
| `FsmCrowbar.ToOn` | source/vloop/fsm_crowbar.cpp:41-49 | `toOn` can only name ON, without cascade |
| `FsmCrowbar.ToFaultOff` | source/vloop/fsm_crowbar.cpp:51-60 | `toFaultOff` can only name FO, without cascade |
| `FsmCrowbar.Table` | source/vloop/fsm_crowbar.cpp:14-15 | both states are registered with the entry their `addState` call gives them |
| `FsmCrowbar.Entry` | source/vloop/fsm_crowbar.cpp:14-15 | the state function and the transitions, in order, that each `addState` call registers; `Table` states that every state gets its entry |
| `FsmCrowbar.NextState` | source/vloop/fsm_crowbar.cpp:41-60 | the reference next state of the crowbar machine; `UpdateIsNextState` ties the engine to it |
| `FsmCrowbar.CWBStateMachine.Update` | source/vloop/fsm_crowbar.cpp:19-22 | `update` moves to the reference next state of the readings |
| `FsmCrowbar.CWBStateMachine.GetState` | source/vloop/fsm_crowbar.cpp:24-27 | `getState`: the state of the engine inside; `Update` states that it moves to the reference next state |
| `FsmCrowbar.UpdateIsNextState` | source/vloop/fsm_crowbar.cpp:14-60 | the engine computes the reference next state in one pass: neither transition cascades |
| `FsmCrowbar.Guards` | source/vloop/fsm_crowbar.cpp:41-60 | FO to ON iff the I-loop is ST and VS_RUN was received; ON to FO iff the I-loop is FO or FS or the fault flag is 1 |
| `UserDcFl.DecodeILoopState` | source/vloop/user_dc_fl.hpp:266-299 | a code names an I-loop state exactly when it lies in 1 to 9 |
| `UserDcFl.TruncToInt` | source/vloop/user_dc_fl.hpp:142-149 | converting a slot to `int` truncates toward zero: the result is within 1 of the value, on the value's side of zero |
| `UserDcFl.StateCodes` | source/vloop/user_dc_fl.hpp:301-345 | `getFsmStateAsInt` gives each Vloop state a distinct code in 1 to 9, and the code decodes back to the state |
| `UserDcFl.FsmStateAsInt` | source/vloop/user_dc_fl.hpp:302-344 | `getFsmStateAsInt` gives a code in 1 to 9 that `FsmStateOf` decodes back to the state |
| `UserDcFl.FsmStateOf` | source/vloop/user_dc_fl.hpp:302-344 | the inverse of `getFsmStateAsInt`: a code names a Vloop state exactly when it lies in 1 to 9 |
| `UserDcFl.CodesAcrossEnumerations` | source/vloop/user_dc_fl.hpp:266-345 | a Vloop code read as an I-loop code names the same state, except that CH and CD come back as TS and SB |
| `UserDcFl.RunAndUnblockExclusive` | source/vloop/user_dc_fl.hpp:165-179 | VS_RUN (communication 1) and unblock (communication 2) are never signalled together |
| `UserDcFl.VSRunReceived` | source/vloop/user_dc_fl.hpp:168-171 | `checkVSRunReceived`: the communication slot reads 1; `RunAndUnblockExclusive` states it never holds with unblock |
| `UserDcFl.UnblockReceived` | source/vloop/user_dc_fl.hpp:176-179 | `checkUnblockReceived`: the communication slot reads 2 |
| `UserDcFl.Converter.constructor` | source/vloop/user_dc_fl.hpp:247-264 | a new converter has the I-loop in FO, communication, fault and PLC words at 0, the counter at 0 and the Vloop machine in FO |
| `UserDcFl.Converter.SetIloopState` | source/vloop/user_dc_fl.hpp:266-299 | a known code sets the I-loop state, any other code leaves it, and no other field changes |
| `UserDcFl.Converter.RTTask` | source/vloop/user_dc_fl.hpp:134-163 | the real-time task, run from the `aurora` interrupt, decodes slots 0 to 5 into the converter's inputs, moves the Vloop machine to its next state, replaces slot 0 by the new state's code, sends all 20 slots and counts one more run |
| `UserDcFl.Converter.Readings` | source/vloop/user_dc_fl.hpp:141-147 | the inputs the Vloop machine reads, taken from the converter's decoded slots; `RTTask` states that the machine moves to the next state of exactly these |
| `UserDcFl.Converter.ReadFrame` | source/vloop/user_dc_fl.hpp:137-140 | the input loop copies every slot of the frame |
| `UserDcFl.Converter.SendFrame` | source/vloop/user_dc_fl.hpp:153-157 | the output loop sends every slot, in order |
| `ContainerSearch.Position` | source/vslib/utils/inc/containerSearch.hpp:32-41 | the clamped position is never below 1 and never past the last point |
| `ContainerSearch.SectionAt` | source/vslib/utils/inc/containerSearch.hpp:43-46 | the section between the points at `position - 1` and `position`; `LinearBrackets` and `BinaryMatchesLinear` state which section the searches pick |
| `ContainerSearch.IndexSearch` | source/vslib/utils/inc/containerSearch.hpp:26-47 | the result is the section between two adjacent points of the table |
| `ContainerSearch.IndexBelowTable` | source/vslib/utils/inc/containerSearch.hpp:32-41 | an input far enough below the lower edge yields the first section |
| `ContainerSearch.IndexAboveTable` | source/vslib/utils/inc/containerSearch.hpp:32-41 | an input at or past the last tabulated point yields the last section |
| `ContainerSearch.IndexUnitBins` | source/vslib/utils/inc/containerSearch.hpp:32-46 | on a table of unit bins an input inside the table lies on the lower edge of its section |
| `ContainerSearch.FindFrom` | source/vslib/utils/inc/containerSearch.hpp:65-71 | `find_if` returns the first index whose x reaches the input, or the end of the range |
| `ContainerSearch.LinearSearch` | source/vslib/utils/inc/containerSearch.hpp:59-79 | the index returned lies strictly inside the table, names the section returned, and is the first inner point whose x reaches the input |
| `ContainerSearch.LinearBrackets` | source/vslib/utils/inc/containerSearch.hpp:59-79 | for an input inside the table the section returned brackets it: x1 below, x2 at or above |
| `ContainerSearch.UpperBound` | source/vslib/utils/inc/containerSearch.hpp:96-102 | `upper_bound` with this comparison returns an index inside the searched range |
| `ContainerSearch.UpperBoundIsFirst` | source/vslib/utils/inc/containerSearch.hpp:96-102 | on a range sorted by x, `upper_bound` stops at the first x reaching the input |
| `ContainerSearch.BinarySearch` | source/vslib/utils/inc/containerSearch.hpp:91-109 | the index returned lies strictly inside the table and names the section returned |
| `ContainerSearch.BinaryMatchesLinear` | source/vslib/utils/inc/containerSearch.hpp:59-109 | on a table sorted by x, binary and linear search return the same index and section |
| `WindowSum.Sum` | source/vslib/components/inc/limitIntegral.hpp:44-67 | the sum of the window the integral limit keeps up to date; `SumUpdate` and `SumZeros` state how it changes |
| `WindowSum.SumUpdate` | source/vslib/components/inc/limitIntegral.hpp:44-51 | overwriting one slot of the window changes its sum by the difference of old and new value |
| `WindowSum.SumZeros` | source/vslib/components/inc/limitIntegral.hpp:62-67 | a window of zeros sums to zero |
| `WindowSum.ZeroFill` | source/vslib/components/inc/limitIntegral.hpp:66 | `std::fill` sets every slot to zero, so the window sums to zero |
| `LimitIntegralCheck.Advance` | source/vslib/components/inc/limitIntegral.hpp:52-56 | the head stays inside the window while it is inside; it wraps only on landing exactly on the window length |
| `LimitIntegralCheck.HeadRunsOff` | source/vslib/components/inc/limitIntegral.hpp:52-56 | a head at or past the window length (the default window of zero, or a window shrunk below the head) never wraps: after k accepted inputs it has moved k slots, past the end of the buffer |
| `LimitIntegralCheck.IntendedHeadAgrees` | source/vslib/components/inc/limitIntegral.hpp:52-56 | inside a window no longer than the buffer, the intended head is the one the code computes |
| `WindowSum.IntendedHead` | source/vslib/components/inc/limitIntegral.hpp:52-56 | the head as evidently intended: back to the first slot once it reaches the window length or the end of the buffer, so a head inside the buffer stays inside it |
| `LimitIntegralCheck.LimitIntegral.constructor` | source/vslib/components/inc/limitIntegral.hpp:23-77 | a new limit has a zero buffer, head, sum, limit and window length |
| `LimitIntegralCheck.LimitIntegral.SetIntegralLimit` | source/vslib/components/inc/limitIntegral.hpp:25 | the limit parameter takes any value |
| `LimitIntegralCheck.LimitIntegral.SetWindowLength` | source/vslib/components/inc/limitIntegral.hpp:26 | a window length up to the buffer size is accepted, any other is refused and the old one kept |
| `LimitIntegralCheck.LimitIntegral.Limit` | source/vslib/components/inc/limitIntegral.hpp:34-59 | the sum always takes in the input; the input is accepted iff the sum stays within the limit, and only then stored with the head advanced; the sum keeps matching the buffer iff the input was accepted or equals the slot it would replace |
| `LimitIntegralCheck.LimitIntegral.LimitKeepingSum` | source/vslib/components/inc/limitIntegral.hpp:34-59 | the intended check: a rejected input changes nothing, so the sum always matches the buffer, and an accepted one moves the head by `IntendedHead`, so the head stays inside the buffer |
| `LimitIntegralCheck.LimitIntegral.Reset` | source/vslib/components/inc/limitIntegral.hpp:62-67 | head, sum and every buffer slot are zero, and the sum matches the buffer |
| `LimitIntegralCheck.RejectionPoisonsSum` | source/vslib/components/inc/limitIntegral.hpp:44-51 | with window 2 and limit 5, after 10 is rejected 1 is rejected too, though the window still sums to 0 |
| `LimitIntegralCheck.KeptSumAcceptsNext` | source/vslib/components/inc/limitIntegral.hpp:44-51 | with the sum kept, the same inputs give 10 rejected and 1 accepted |
| `LimitIntegralCheck.ZeroWindowOverrun` | source/vslib/components/inc/limitIntegral.hpp:23-56 | with the default window length of zero, two accepted inputs leave the head of a two-slot buffer at 2, past its last slot |
| `LimitIntegralCheck.ZeroWindowWraps` | source/vslib/components/inc/limitIntegral.hpp:44-56 | with the intended head the same inputs leave the head at 0 |
| `LimitIntegralClamp.Wrap` | source/vslib/components/inc/limitIntegral.h:49-53 | the head stays inside a non-empty window, and with a zero window length it only grows |
| `LimitIntegralClamp.ZeroWindowRunsOff` | source/vslib/components/inc/limitIntegral.h:49-53 | with the default window length of zero the head never wraps: after k stored inputs it has moved k slots, past the end of the buffer |
| `LimitIntegralClamp.IntendedHeadAgrees` | source/vslib/components/inc/limitIntegral.h:49-53 | inside a window no longer than the buffer, the intended head is the one the code computes |
| `LimitIntegralClamp.LimitIntegral.constructor` | source/vslib/components/inc/limitIntegral.h:99-107 | a new limit has a zero buffer, head, sum, limit and window length |
| `LimitIntegralClamp.LimitIntegral.SetIntegralLimit` | source/vslib/components/inc/limitIntegral.h:21 | the limit parameter takes any value |
| `LimitIntegralClamp.LimitIntegral.SetWindowLength` | source/vslib/components/inc/limitIntegral.h:22 | a window length up to the buffer size is accepted, any other is refused and the old one kept |
| `LimitIntegralClamp.LimitIntegral.Limit` | source/vslib/components/inc/limitIntegral.h:30-56 | the input is returned unchanged iff the new sum stays within the limit, otherwise the largest value reaching the limit exactly; afterwards the sum is within the limit and still matches the buffer |
| `LimitIntegralClamp.LimitIntegral.LimitNonRT` | source/vslib/components/inc/limitIntegral.h:62-89 | the input is always stored; the warning, naming the input and the limit, is raised iff the new sum reaches the limit |
| `LimitIntegralClamp.LimitIntegral.Reset` | source/vslib/components/inc/limitIntegral.h:92-97 | head, sum and every buffer slot are zero |
| `LimitIntegralClamp.WrapAroundScenario` | source/vslib/components/inc/limitIntegral.h:46-86 | window 4, limit 100: five inputs of 10 raise no warning, then 71 raises one with the sum at 101 |
| `LimitIntegralClamp.ZeroWindowOverrun` | source/vslib/components/inc/limitIntegral.h:19-79 | with the default window length of zero, two stored inputs leave the head of a two-slot buffer at 2, past its last slot |
| `LimitRange.UnsignedEdgeAgrees` | source/vslib/components/inc/limitRange.h:46-56 | inside the dead zone the unsigned comparison of differences picks the same edge as the signed comparison of distances |
| `LimitRange.NearestEdge` | source/vslib/components/inc/limitRange.h:46-57 | the result is one of the two edges and no farther from the input than either; the lower edge on a tie |
| `LimitRange.LimitRange.constructor` | source/vslib/components/inc/limitRange.h:23-97 | a new limit has zero thresholds, a zero dead zone and no dead zone defined |
| `LimitRange.LimitRange.Limit` | source/vslib/components/inc/limitRange.h:36-70 | `limit`: the nearer dead-zone edge inside the zone, else the input clamped; `LimitClamps`, `LimitMovesToEdge` and `LimitAvoidsZone` state it |
| `LimitRange.LimitRange.LimitClamps` | source/vslib/components/inc/limitRange.h:59-69 | outside the dead zone the result is the input clamped into [min, max] |
| `LimitRange.LimitRange.LimitMovesToEdge` | source/vslib/components/inc/limitRange.h:46-57 | inside the dead zone the result is one of its edges, the lower one iff it is at least as close |
| `LimitRange.LimitRange.LimitAvoidsZone` | source/vslib/components/inc/limitRange.h:36-70 | with the dead zone inside [min, max] every result is in range and never strictly inside a defined zone |
| `LimitRange.LimitRange.VerifyParameters` | source/vslib/components/inc/limitRange.h:79-94 | the zone is defined iff its edges differ; no warning iff the zone is not inverted and min < max; an inverted zone is reported first, then inverted limits |
| `LimitRange.Message` | source/vslib/components/inc/limitRange.h:83-91 | the two texts `verifyParameters` returns, one for an inverted dead zone and one for inverted limits |
| `LimitRange.LimitRange.InDeadZone` | source/vslib/components/inc/limitRange.h:46 | an input strictly between the edges of a defined dead zone; `LimitMovesToEdge` and `LimitAvoidsZone` state what `limit` does with it |
| `RstController.Next` | source/vslib/components/inc/rstController.h:68-72 | the head after `control` stays inside the history |
| `RstController.Prev` | source/vslib/components/inc/rstController.h:83-104 | the most recently written slot, one behind the head, lies inside the history |
| `RstController.PrevOfNext` | source/vslib/components/inc/rstController.h:68-87 | the slot one behind the advanced head is the slot `control` just wrote |
| `RstController.Back` | source/vslib/components/inc/rstController.h:54-60 | going `i` slots back from the head, with wrap-around, stays inside the history and never lands on the head |
| `RstController.Conv` | source/vslib/components/inc/rstController.h:53-64 | the sum of the coefficient-times-history products the actuation loop accumulates from index 1 on; `ConvOfRest` and `ConvIgnoresHead` state how it splits and that it never reads the head slot |
| `RstController.ConvOfRest` | source/vslib/components/inc/rstController.h:53-64 | a history that is zero away from the head adds nothing to the past terms |
| `RstController.ConvIgnoresHead` | source/vslib/components/inc/rstController.h:53-64 | the past terms never read the head slot, so writing it does not change them |
| `RstController.Actuation` | source/vslib/components/inc/rstController.h:53-66 | the actuation of `control`: current and past weighted terms over `s[0]`; `ActuationFromRest` and `OpenLoopInverts` state it |
| `RstController.Actuation3` | source/vslib/components/inc/rstController.h:312-332 | the actuation of the length-3 `control`: the same weighted sum over the shifted histories; `OpenLoopInverts3` ties it to the back-computed reference |
| `RstController.OpenLoopReference3` | source/vslib/components/inc/rstController.h:338-347 | the reference the length-3 `updateReferenceOpenLoop` back-computes from an imposed actuation; `OpenLoopInverts3` shows it reproduces that actuation |
| `RstController.OpenLoopInverts3` | source/vslib/components/inc/rstController.h:312-347 | with the back-computed reference put at index 0 and the actuations shifted as `control` shifts them, the length-3 actuation formula gives back the imposed actuation |
| `RstController.HistoryStep` | source/vslib/components/inc/rstController.h:34-39 | the head and readiness after one `updateInputHistories`; `ReadyAfterWarmUp` shows the controller ready after exactly `length - 1` updates |
| `RstController.OpenLoopReference` | source/vslib/components/inc/rstController.h:97-119 | the reference `updateReferenceOpenLoop` back-computes; `OpenLoopInverts` proves that the actuation formula gives back the imposed actuation |
| `RstController.ActuationFromRest` | source/vslib/components/inc/rstController.h:53-66 | from zero histories the first actuation is `(t0 ref - r0 meas) / s0` |
| `RstController.OpenLoopInverts` | source/vslib/components/inc/rstController.h:97-119 | the reference `updateReferenceOpenLoop` computes is the one for which the actuation formula gives back the imposed actuation |
| `RstController.ReadyAfterWarmUp` | source/vslib/components/inc/rstController.h:29-40 | from reset the controller becomes ready after exactly `length - 1` history updates, with the head back at 0 |
| `RstController.ShiftIn` | source/vslib/components/inc/rstController.h:315-370 | a three-slot history shifts by one and takes the new entry at index 0 |
| `RstController.ZeroFill` | source/vslib/components/inc/rstController.h:124-126 | `std::fill` sets every slot to zero |
| `RstController.RSTController.constructor` | source/vslib/components/inc/rstController.h:289-300 | a new controller has zero coefficients and histories, head 0 and is not ready |
| `RstController.RSTController.SetR` | source/vslib/components/inc/rstController.h:240-270 | `setR` replaces the R array wholesale and `getR` returns it |
| `RstController.RSTController.SetS` | source/vslib/components/inc/rstController.h:248-278 | `setS` replaces the S array wholesale and `getS` returns it |
| `RstController.RSTController.SetT` | source/vslib/components/inc/rstController.h:256-286 | `setT` replaces the T array wholesale and `getT` returns it |
| `RstController.RSTController.UpdateInputHistories` | source/vslib/components/inc/rstController.h:29-40 | the inputs go to the head slot (shifted in at index 0 for length 3); the head advances and the controller becomes ready when it reaches `length - 1` (the length-3 specialisation is at lines 361-378) |
| `RstController.RSTController.PastTerms` | source/vslib/components/inc/rstController.h:54-64 | the loop over past entries sums T times references, minus R times measurements and S times actuations, behind the head |
| `RstController.RSTController.ControlShifted` | source/vslib/components/inc/rstController.h:312-332 | for length 3 all three histories shift by one and the new actuation is the length-3 formula |
| `RstController.RSTController.ControlCircular` | source/vslib/components/inc/rstController.h:47-75 | the inputs and the actuation of the RST formula are stored at the head, which advances modulo the length |
| `RstController.RSTController.Control` | source/vslib/components/inc/rstController.h:47-75 | `control` dispatches on the length: circular histories in general, shifted ones for length 3; the controller stays valid (the length-3 specialisation is at lines 312-332) |
| `RstController.RSTController.UpdateReference` | source/vslib/components/inc/rstController.h:80-91 | only the newest slot changes: the actuation becomes the imposed one and the reference moves by the change times `s0 / t0` (the length-3 specialisation is at lines 352-358) |
| `RstController.RSTController.OpenLoopPastTerms` | source/vslib/components/inc/rstController.h:107-117 | the open-loop loop sums S times actuations plus R times measurements minus T times references behind the newest slot |
| `RstController.RSTController.UpdateReferenceOpenLoop` | source/vslib/components/inc/rstController.h:97-119 | the newest slot takes the imposed actuation and the reference that reproduces it (the length-3 specialisation is at lines 338-349) |
| `RstController.RSTController.Reset` | source/vslib/components/inc/rstController.h:122-129 | all histories are zero, the head is 0 and the controller is not ready; the coefficients stay |
| `RstController.RSTController.IsReady` | source/vslib/components/inc/rstController.h:208-211 | `isReady`: the histories are filled; `ReadyAfterWarmUp` states after how many updates |
| `RstController.FirstActuationScenario` | source/vslib/components/inc/rstController.h:312-358 | with the test's length-3 coefficients the first actuation is `(0.15 ref - 0.1 meas) / 0.5`, the histories hold the new entries then zeros, and a clipped actuation moves the newest reference by the scaled change |
| `RstController.WarmUpScenario` | source/vslib/components/inc/rstController.h:29-40 | a length-5 controller is ready after its fourth history update and not before |
| `TypeLabel.ArrayLabel` | source/utils/typeLabel.hpp:120-124 | an array's label is the array prefix followed by its element's label, whatever the size |
| `TypeLabel.GetTypeLabel` | source/utils/typeLabel.hpp:26-140 | `getTypeLabel` gives a non-empty label that starts like the array prefix iff the type is an array, and then begins with that prefix; `LabelsIdentifyShape` shows labels tell shapes apart |
| `TypeLabel.ScalarLabelNotPrefixed` | source/utils/typeLabel.hpp:26-115 | no scalar label is empty or starts like the array prefix |
| `TypeLabel.LabelsIdentifyShape` | source/utils/typeLabel.hpp:26-140 | two types have the same label iff they have the same shape (element type, ignoring array sizes) |
| `TypeVerification.FirstFailing` | source/vslib/utils/inc/typeVerification.hpp:57-66 | the index reported is the first element failing the requirement, and none is reported iff all elements meet it |
| `TypeVerification.CheckElements` | source/vslib/utils/inc/typeVerification.hpp:53-81 | the array loop passes iff the value is an array and every element meets the requirement; a non-array is reported as such, otherwise the first failing index |
| `TypeVerification.CheckIfUnsigned` | source/vslib/utils/inc/typeVerification.hpp:17-81 | an unsigned non-bool scalar type passes iff the value is an unsigned JSON integer, an array of them iff every element is one; every other type passes |
| `TypeVerification.CheckIfBoolean` | source/vslib/utils/inc/typeVerification.hpp:89-147 | `bool` passes iff the value is a JSON boolean, an array of `bool` iff every element is one; every other type passes |
| `TypeVerification.CheckIfIntegral` | source/vslib/utils/inc/typeVerification.hpp:155-212 | an integral non-bool scalar type passes iff the value is a JSON integer of either sign, an array of them iff every element is one; every other type passes |
| `TypeVerification.Message` | source/vslib/utils/inc/typeVerification.hpp:31-208 | the text of each warning the three checks return, the dump of the value and, for an array, the failing index written in decimal; `DecimalRoundTrip` states that the index reads back |
| `TypeVerification.Decimal` | source/vslib/utils/inc/typeVerification.hpp:61-64 | the index in a warning is printed as a non-empty string of decimal digits |
| `TypeVerification.DecimalRoundTrip` | source/vslib/utils/inc/typeVerification.hpp:61-64 | the printed index reads back as the same number |
| `TypeVerification.BooleanWordingReused` | source/vslib/utils/inc/typeVerification.hpp:99-106 | the Boolean scalar warning has the same text as the unsigned one |
| `TypeVerification.SizeNeverCompared` | source/vslib/utils/inc/typeVerification.hpp:47-212 | no array check depends on the array type's size |
| `TypeVerification.CategoryMismatchPasses` | source/vslib/utils/inc/typeVerification.hpp:17-212 | a check whose category the type lacks passes whatever the value |
| `TypeVerification.SignedTwentyFiveFails` | source/vslib/utils/tests/typeVerificationTest.cpp:75-78 | a signed JSON 25 fails the unsigned check for `uint16_t` but passes the integral one |
| `TypeVerification.HeterogeneousArrayFailsAtString` | source/vslib/utils/tests/typeVerificationTest.cpp:150-156 | an array of unsigned integers with a string at index 2 fails the unsigned check at index 2 |
| `CppTypes.Default` | source/vslib/parameters/inc/parameter.hpp:335 | `T{}` is a value of type T and is zero: false, 0, 0.0, the empty string, the first enumerator, or an array of zeros; `ZeroUnique` states that it is the only such value |
| `CppTypes.ZeroUnique` | source/vslib/parameters/inc/parameter.hpp:335 | every zero value of a type is `T{}` of that type |
| `CppTypes.ToWidth` | source/vslib/parameters/inc/parameter.hpp:440 | an integer brought into a fixed-width type lies in its range and differs from the original by a multiple of 2^width |
| `CppTypes.ToWidthKeeps` | source/vslib/parameters/inc/parameter.hpp:440 | an integer already in range is kept by the conversion |
| `CppTypes.Cast` | source/vslib/parameters/inc/parameter.hpp:435-446 | a value the implicit conversion produces has the target type; `CastOfToJson` and `BooleanRefusedByLibraryNumbers` state which values it accepts |
| `CppTypes.CastFloat` | source/vslib/parameters/inc/parameter.hpp:435-446 | converting to a floating type gives a floating value; a boolean is accepted only for `float` |
| `CppTypes.CastElements` | source/vslib/parameters/inc/parameter.hpp:435-446 | an array converted element by element has the array type with the elements' count |
| `CppTypes.LibraryNumberType` | source/vslib/parameters/inc/parameter.hpp:435-446 | `double`, `int64_t` and `uint64_t`, the types the JSON library converts through its own number accessor |
| `CppTypes.ToJson` | source/vslib/parameters/inc/parameter.hpp:435-446 | the JSON value the library writes for a value of a type without enumerations: a boolean, a signed or unsigned integer, a float, a string, or an array of these |
| `CppTypes.CastOfToJson` | source/vslib/parameters/inc/parameter.hpp:435-446 | converting the JSON of a value back to its type gives the value itself, arrays included |
| `CppTypes.CastElementsOfToJson` | source/vslib/parameters/inc/parameter.hpp:435-446 | the same round trip element by element |
| `CppTypes.BooleanRefusedByLibraryNumbers` | source/vslib/parameters/inc/parameter.hpp:435-446 | a JSON boolean is refused by a numeric type exactly when the type is `double`, `int64_t` or `uint64_t` (the library throws `type_error` 302) |
| `CppTypes.BooleanForLibraryNumbers` | source/vslib/parameters/inc/parameter.hpp:435-446 | `true` becomes 1 for `float` and `int32_t`, and is refused for `double`, `int64_t`, `uint64_t` and inside a `double` array |
| `CppTypes.Truncate` | source/vslib/parameters/inc/parameter.hpp:440 | a real converted to an integer is truncated toward zero: within 1 of the value, on the side of zero |
| `Parameter.VerifyTypeAgrees` | source/vslib/parameters/inc/parameter.hpp:407-427 | the integral check runs first, then the unsigned one, then the Boolean one; the first warning is returned, none iff all three pass |
| `Parameter.Lowest` | source/vslib/parameters/inc/parameter.hpp:80 | `numeric_limits<LimitType<T>>::lowest()`, the default lower limit: never above zero |
| `Parameter.Highest` | source/vslib/parameters/inc/parameter.hpp:81 | `numeric_limits<LimitType<T>>::max()`, the default upper limit: at least one |
| `Parameter.FirstOutside` | source/vslib/parameters/inc/parameter.hpp:356-372 | the index reported is the first element outside [min, max], and none iff all lie inside |
| `Parameter.CheckLimits` | source/vslib/parameters/inc/parameter.hpp:356-398 | a numeric scalar passes iff it lies in [min, max]; a numeric array iff every element does, and otherwise an element outside is reported; other types always pass |
| `Parameter.EnumCast` | source/vslib/parameters/inc/parameter.hpp:480-506 | `enum_cast` finds an enumerator iff one has the name, and the one found has it |
| `Parameter.DecodeEnumerator` | source/vslib/parameters/inc/parameter.hpp:476-493 | a JSON value decodes to an enumerator iff it is a string naming one; otherwise the warning names the value, and for a value that is not a string it marks the conversion that throws |
| `Parameter.Decode` | source/vslib/parameters/inc/parameter.hpp:433-493 | a value accepted has the parameter's type, is what the conversion produced, passes the type checks and the limits; a failed conversion is reported as such, and a limit warning only follows passing type checks |
| `Parameter.EnumArrayWrite` | source/vslib/parameters/inc/parameter.hpp:499-521 | writing enumerator names as intended keeps the array's size and every element before the starting index |
| `Parameter.KnownPrefix` | source/vslib/parameters/inc/parameter.hpp:504-518 | the leading names that are enumerators, up to the first that is not |
| `Parameter.EnumArrayPartialWrite` | source/vslib/parameters/inc/parameter.hpp:499-521 | the elements written are the decoded leading names in order, the rest keep their value, and the write succeeds iff every name is known and fits |
| `Parameter.WrittenIndicesAsWritten` | source/vslib/parameters/inc/parameter.hpp:499-521 | the loop as written writes one index per leading known name, from the counter on, whatever the array's size |
| `Parameter.EnumArrayMeetsNonString` | source/vslib/parameters/inc/parameter.hpp:504-508 | the enumerator-array loop meets a value whose string conversion throws exactly when one follows a run of known names that all found an element |
| `Parameter.EnumArrayOverrunAsWritten` | source/vslib/parameters/inc/parameter.hpp:499-521 | three known names for an array of two enumerators make the loop write index 2, past the end |
| `Parameter.EnumArrayOverrunRefused` | source/vslib/parameters/inc/parameter.hpp:499-521 | with the size respected both elements are written and the third name is refused |
| `Parameter.TypeCheckBeforeLimits` | source/vslib/parameters/inc/parameter.hpp:450-464 | a `uint8_t` limited to [0, 10] given -5 is refused by the unsigned check before the limits are looked at |
| `Parameter.FloatForIntegerRefused` | source/vslib/parameters/inc/parameter.hpp:438-457 | an `int16_t` given 2.5 converts to 2 and is then refused by the integral check |
| `Parameter.ArrayLimitReportsFirstOutside` | source/vslib/parameters/inc/parameter.hpp:356-372 | a `double` array limited to [0, 1] given 0.5, 2.0 and -1.0 reports 2.0 |
| `Parameter.Parameter.WithLimits` | source/vslib/parameters/inc/parameter.hpp:78-92 | a numeric parameter starts with default slots, read slot 0 and write slot 1, not initialised or validated; a limit counts as defined iff it differs from the type's extreme (the member defaults are at lines 335-346) |
| `Parameter.Parameter.Plain` | source/vslib/parameters/inc/parameter.hpp:64-70 | a non-numeric parameter starts with default slots and no limits (the member defaults are at lines 335-346) |
| `Parameter.Parameter.Element` | source/vslib/parameters/inc/parameter.hpp:109-122 | an index inside the array gives that element of the read slot, any other is an out-of-range error naming index and size |
| `Parameter.Parameter.SwapBuffers` | source/vslib/parameters/inc/parameter.hpp:322-327 | the slots change roles: the value read is the one validated before, and the other way round |
| `Parameter.Parameter.Value` | source/vslib/parameters/inc/parameter.hpp:158-161 | `value()`: the read slot; `SwapBuffers` states that after a swap it is the slot validated before |
| `Parameter.Parameter.ToValidate` | source/vslib/parameters/inc/parameter.hpp:166-169 | `toValidate()`: the write slot; `SwapBuffers` states that after a swap it is the slot read before |
| `Parameter.Parameter.SyncWriteBuffer` | source/vslib/parameters/inc/parameter.hpp:316-319 | the write slot takes the read slot's value, which stays |
| `Parameter.Parameter.SetValidated` | source/vslib/parameters/inc/parameter.hpp:307-310 | the validated flag takes the value given |
| `Parameter.Parameter.SetInitialized` | source/vslib/parameters/inc/parameter.hpp:299-302 | the initialised flag takes the value given |
| `Parameter.Parameter.SetJsonValue` | source/vslib/parameters/inc/parameter.hpp:433-521 | a value decoded without warning goes to the write slot and marks the parameter initialised; a warning is returned with the slots unchanged, except that an enumerator array keeps the names written before the failure; the read slot never changes |
| `Parameter.Parameter.SetEnumArray` | source/vslib/parameters/inc/parameter.hpp:499-521 | the enumerator-array setter writes as `EnumArrayWrite` says, into the write slot only |
| `Parameter.SwapTwice` | source/vslib/parameters/inc/parameter.hpp:322-327 | swapping twice gives each slot its original role and content |
| `Component.FullNameOf` | source/vslib/components/inc/component.h:110-118 | the full name is "type.name", behind the parent's full name and a dot when there is a parent |
| `Component.Values` | source/vslib/components/inc/component.h:73-80 | the parameters' serialisations, in registration order |
| `Component.Hierarchy.constructor` | source/vslib/components/inc/component.h:31-44 | an empty hierarchy has no components and empty registries |
| `Component.Hierarchy.NewComponent` | source/vslib/components/inc/component.h:30-65 | with a parent, the new component captures the parent's full name, extends it and is appended to the parent's children; without one it is registered under its bare name; it starts with no parameters or children (the child list is extended by `addChild`, lines 128-131) |
| `Component.Hierarchy.RegisterParameter` | source/vslib/components/inc/component.h:53-59 | the parameter is registered under "fullName.parameterName" and appended to the component's parameters; nothing else changes |
| `Component.Hierarchy.SerializeAll` | source/vslib/components/inc/component.h:82-89 | the children's serialisations, one per child and in order |
| `Component.Hierarchy.Serialize` | source/vslib/components/inc/component.h:71-96 | `serialize` of a component: an object with its name, type, parameters and children; `SerializeFields` states each member and `Publication.ParseOfSerialize` reads it back |
| `Component.Hierarchy.SerializeFields` | source/vslib/components/inc/component.h:71-96 | the serialisation holds the name, the type, the parameters' serialisations and the children's serialisations under their keys |
| `Component.RegistryKeyIsNotFullName` | source/vslib/components/inc/component.h:62-118 | a parentless component's registry key, its bare name, is never its full name |
| `Component.HierarchicalNamesScenario` | source/vslib/components/tests/componentTest.cpp:105-117 | a child "child_type"/"child_name" of "type"/"name" has the full name joining all four, and only the parent is registered |
| `Manifest.StringOf` | source/linux_parameter_setter/remote.cpp:30-34 | a member converts to a string iff it is present and a JSON string |
| `Json.Lookup` | source/linux_parameter_setter/remote.cpp:29-34 | the value bound to a key: none iff no field has that key, else the value of a field with that key |
| `Json.Get` | source/linux_parameter_setter/remote.cpp:29-30 | `component["name"]` on an object: a member exactly when the object contains the key |
| `Json.Elements` | source/linux_parameter_setter/remote.cpp:31 | the values a range `for` visits over a JSON value: none exactly for null and for an empty array or object |
| `Manifest.ParseComponent` | source/linux_parameter_setter/remote.cpp:20-46 | `parseComponent`: a component's own parameters under its full name, then its children's; `NoParametersNoEntries`, `PreOrder` and `Publication.ParseOfSerialize` state it |
| `Manifest.ChildEntries` | source/linux_parameter_setter/remote.cpp:39-45 | the walk of a component's children fails exactly when one child's walk fails |
| `Manifest.ParseChildren` | source/linux_parameter_setter/remote.cpp:41-44 | the children walked in order with the same base: it fails exactly when one of them fails |
| `Manifest.ElementEntries` | source/linux_parameter_setter/remote.cpp:51-60 | only an element with a non-empty list of components can make the walk fail |
| `Manifest.ManifestEntries` | source/linux_parameter_setter/remote.cpp:48-63 | the walk of the manifest fails exactly when one element's walk fails |
| `Manifest.ParameterEntries` | source/linux_parameter_setter/remote.cpp:29-36 | each parameter is listed, in order, as "full.name" with its type, and the walk fails iff one is not a named, typed object |
| `Manifest.ParseManifest` | source/linux_parameter_setter/remote.cpp:48-63 | the loop over the manifest computes the walk of every element's components, skipping elements without components |
| `Manifest.FailureSticks` | source/linux_parameter_setter/remote.cpp:48-63 | once a prefix of the elements fails, the whole walk fails |
| `Manifest.NoParametersNoEntries` | source/linux_parameter_setter/remote.cpp:25-28 | a component without parameters contributes nothing, whatever its children |
| `Manifest.PreOrder` | source/linux_parameter_setter/remote.cpp:29-45 | a component's own parameters, under its full name, come before its children's entries, which are walked with that full name as base |
| `Manifest.LastDot` | source/linux_parameter_setter/remote.cpp:154-156 | `find_last_of('.')` gives the last dot, or none iff there is no dot |
| `Manifest.AfterLastDot` | source/linux_parameter_setter/remote.cpp:154 | `substr(find_last_of(".") + 1)`: what follows the last dot, or the whole name without one; `AfterLastDotHasNoDot` and `SplitAtLastDot` state it |
| `Manifest.BeforeLastDot` | source/linux_parameter_setter/remote.cpp:155 | `substr(0, find_last_of("."))`: what precedes the last dot, or the whole name without one; `SplitAtLastDot` states it |
| `Manifest.AfterLastDotHasNoDot` | source/linux_parameter_setter/remote.cpp:154 | what follows the last dot holds no dot |
| `Manifest.SplitAtLastDot` | source/linux_parameter_setter/remote.cpp:154-156 | splitting "a.b" at the last dot, with no dot in b, gives a and b back |
| `Manifest.ValueKeyOfDottedName` | source/linux_parameter_setter/remote.cpp:154-158 | the table key of "prefix.component.parameter" is "component.parameter", whatever the prefix holds |
| `Manifest.ValueKeyWithoutDot` | source/linux_parameter_setter/remote.cpp:154-156 | a name without a dot is both segments of its key |
| `Manifest.ValueKey` | source/linux_parameter_setter/remote.cpp:154-158 | the table key of a parameter name, its last two dot-separated segments; `ValueKeySegments` and `ValueKeyOfDottedName` state what it keeps |
| `Manifest.ValueKeySegments` | source/linux_parameter_setter/remote.cpp:154-158 | the key keeps the name's own segment after its last dot, and the segment before that one before the dot |
| `Manifest.CommandFields` | source/linux_parameter_setter/remote.cpp:158 | a command carries the parameter's name, its value and the version [0, 1] |
| `Manifest.TableValue` | source/linux_parameter_setter/remote.cpp:158 | `values_to_set[key]`: a non-null value is the one the table holds for the key; a missing key gives null |
| `Manifest.Command` | source/linux_parameter_setter/remote.cpp:158 | a command object for a name and a value; `CommandFields` states the name, value and version it carries |
| `Manifest.PrepareCommands` | source/linux_parameter_setter/remote.cpp:65-162 | one command per parameter, in order, named as the parameter with the table's value for its last two segments, null when the table has none |
| `Publication.OwnEntries` | source/vslib/components/inc/component.h:53-95 | one entry per registered parameter of the component |
| `Publication.OwnEntriesParsed` | source/linux_parameter_setter/remote.cpp:29-36 | the walk lists a component's serialised parameters as `OwnEntries` says |
| `Publication.SerializedMembers` | source/vslib/components/inc/component.h:71-96 | the walk finds in a serialised component its name, its parameters and its children's serialisations |
| `Publication.ParseOfSerialize` | source/vslib/components/inc/component.h:71-96 | the walk of a serialised component lists exactly what it publishes: every parameter once, in pre-order, by its path of names |
| `Publication.ParseOfSerializeAll` | source/linux_parameter_setter/remote.cpp:39-45 | the walk of the serialised children lists their published entries in order |
| `LoaderUser.FirstSpace` | source/linux_parameter_setter/loader_user.cpp:123-126 | `find_first_of(' ')` gives the first space, or none iff there is none |
| `LoaderUser.Tokens` | source/linux_parameter_setter/loader_user.cpp:20-44 | `getline` with a space delimiter yields items without spaces |
| `LoaderUser.FirstSpaceAfter` | source/linux_parameter_setter/loader_user.cpp:123-126 | in "a b" with no space in a, the first space follows a |
| `LoaderUser.TokensOfJoin` | source/linux_parameter_setter/loader_user.cpp:20-23 | splitting undoes joining with spaces when no item holds a space and the last is not empty |
| `LoaderUser.SkipSpaces` | source/linux_parameter_setter/loader_user.cpp:48-86 | `stoi` and `stod` skip leading white space: the rest is a suffix not starting with white space |
| `LoaderUser.LeadingDigits` | source/linux_parameter_setter/loader_user.cpp:48-86 | the longest prefix of decimal digits |
| `LoaderUser.Sign` | source/linux_parameter_setter/loader_user.cpp:48-86 | an optional leading sign gives the factor +1 or -1 and the text after it |
| `LoaderUser.StoI` | source/linux_parameter_setter/loader_user.cpp:48-86 | a value `stoi` returns fits a 32-bit `int` |
| `LoaderUser.StoIOfIntText` | source/linux_parameter_setter/loader_user.cpp:48-86 | every 32-bit `int` written in decimal reads back as itself |
| `LoaderUser.DigitsRead` | source/linux_parameter_setter/loader_user.cpp:48-86 | a run of digits whose value fits is read whole |
| `LoaderUser.NegativeDigitsRead` | source/linux_parameter_setter/loader_user.cpp:48-86 | a minus sign and digits whose negation fits read as the negative value |
| `LoaderUser.NegativeDigits` | source/linux_parameter_setter/loader_user.cpp:48-86 | a minus sign then digits has no white space to skip and stands for -1 |
| `LoaderUser.LeadingDigitsOfDigits` | source/linux_parameter_setter/loader_user.cpp:48-86 | a string of digits is its own leading digits |
| `LoaderUser.AllItems` | source/linux_parameter_setter/loader_user.cpp:23-55 | all items convert iff none throws, the results in order; otherwise the error of the first item that throws |
| `LoaderUser.ProcessIntArray` | source/linux_parameter_setter/loader_user.cpp:38-57 | the loop converts every item through `stoi`; as only `bad_cast` is caught, the first bad item ends the conversion |
| `LoaderUser.ProcessDoubleArray` | source/linux_parameter_setter/loader_user.cpp:16-36 | the same loop through `stod` |
| `LoaderUser.ItemStep` | source/linux_parameter_setter/loader_user.cpp:23-34 | one more item appends its conversion or is the error |
| `LoaderUser.FailureSticks` | source/linux_parameter_setter/loader_user.cpp:23-34 | the first failing item decides the error, whatever follows |
| `LoaderUser.ToLower` | source/linux_parameter_setter/loader_user.cpp:64-71 | lower-casing keeps the length and changes only 'A' to 'Z' |
| `LoaderUser.StoD` | source/linux_parameter_setter/loader_user.cpp:88-91 | a value `stod` returns is zero or a normal `double` in magnitude: an overflow and a non-zero underflow are `out_of_range`; `StoDOfIntText` and `StoDOfPointText` state the value it reads |
| `LoaderUser.DecimalParts` | source/linux_parameter_setter/loader_user.cpp:88-91 | what `stod` reads after white space: a sign of 1 or -1 and at least one mantissa digit; `IntTextParts` and `PointTextParts` state what it reads from integer and point text |
| `LoaderUser.StoDOfIntText` | source/linux_parameter_setter/loader_user.cpp:88-91 | the text of any integer reads back as that integer when it is within the largest `double`, and is `out_of_range` otherwise |
| `LoaderUser.StoDOfPointText` | source/linux_parameter_setter/loader_user.cpp:88-91 | digits, a point and digits read as the exact decimal value, all the digits over ten to the number after the point, when that is zero or a normal `double`, and `out_of_range` otherwise |
| `LoaderUser.StoDOfParts` | source/linux_parameter_setter/loader_user.cpp:88-91 | once the text is read as a sign, digits and an exponent, the result is their value when it fits a `double` and `out_of_range` otherwise |
| `LoaderUser.IntTextParts` | source/linux_parameter_setter/loader_user.cpp:88-91 | the text of an integer is read as its sign and its digits, with no point and nothing after them |
| `LoaderUser.DigitsParts` | source/linux_parameter_setter/loader_user.cpp:88-91 | digits alone are read as a positive sign and those digits, with no point and nothing after them |
| `LoaderUser.NegativeDigitsParts` | source/linux_parameter_setter/loader_user.cpp:88-91 | a minus sign and digits are read as a negative sign and those digits, with no point and nothing after them |
| `LoaderUser.DigitsMantissa` | source/linux_parameter_setter/loader_user.cpp:88-91 | the mantissa of digits alone is those digits, with no point and nothing after them |
| `LoaderUser.PointTextParts` | source/linux_parameter_setter/loader_user.cpp:88-91 | digits, a point and digits are read as a positive sign, all the digits, as many after the point as there are fraction digits, and nothing after them |
| `LoaderUser.MantissaOfPointText` | source/linux_parameter_setter/loader_user.cpp:88-91 | the mantissa of digits, a point and digits is all the digits, with nothing after them |
| `LoaderUser.LeadingDigitsStop` | source/linux_parameter_setter/loader_user.cpp:88-91 | the leading digits stop at the first character that is not a digit |
| `LoaderUser.EmptyExponent` | source/linux_parameter_setter/loader_user.cpp:88-91 | without an exponent part the exponent is zero |
| `LoaderUser.ScaleDown` | source/linux_parameter_setter/loader_user.cpp:88-91 | scaling down by ten to the power k divides by ten to the power k |
| `LoaderUser.ScaleOfInteger` | source/linux_parameter_setter/loader_user.cpp:88-91 | an integer not scaled is itself |
| `LoaderUser.IntegerFits` | source/linux_parameter_setter/loader_user.cpp:88-91 | an integer fits a `double` iff it is within the largest one, since a non-zero integer is at least the smallest normal |
| `LoaderUser.NonNegativeFits` | source/linux_parameter_setter/loader_user.cpp:88-91 | a value of at least zero fits iff it is within the largest `double` and is zero or at least the smallest normal |
| `LoaderUser.QuotientNonNegative` | source/linux_parameter_setter/loader_user.cpp:88-91 | digits over a power of ten are at least zero |
| `LoaderUser.DecimalValueOfDigits` | source/linux_parameter_setter/loader_user.cpp:88-91 | digits have a value of at least zero |
| `LoaderUser.Mantissa` | source/linux_parameter_setter/loader_user.cpp:88-91 | the digits of a `stod` mantissa: at least one, all decimal |
| `LoaderUser.Exponent` | source/linux_parameter_setter/loader_user.cpp:88-91 | an exponent is read only after `e` or `E` followed by at least one more character; one that is not read counts as zero |
| `LoaderUser.PrepareCommandAsWritten` | source/linux_parameter_setter/loader_user.cpp:59-98 | `prepareCommand` as written; `Float64ArrayUnsetAsWritten` shows a float array getting no value |
| `LoaderUser.PrepareCommand` | source/linux_parameter_setter/loader_user.cpp:59-98 | `prepareCommand` with float arrays parsed as doubles; `ScalarCommands`, `IntArrayCommands`, `DoubleArrayCommands` and `Float64ArraySet` state each branch |
| `LoaderUser.Ints` | source/linux_parameter_setter/loader_user.cpp:77 | the integer items as JSON integers, in order |
| `LoaderUser.Doubles` | source/linux_parameter_setter/loader_user.cpp:81 | the floating items as JSON floats, in order |
| `LoaderUser.CommandObjectFields` | source/linux_parameter_setter/loader_user.cpp:61-96 | a command carries the name, and the value when one was set |
| `LoaderUser.CommandObject` | source/linux_parameter_setter/loader_user.cpp:61-96 | the command object: the name, and the value when the type selected one; `CommandObjectFields` states both members |
| `LoaderUser.ScalarCommands` | source/linux_parameter_setter/loader_user.cpp:84-96 | a scalar integer type carries what `stoi` read, a floating type what `stod` read, any other the text; a throwing conversion yields no command |
| `LoaderUser.ScalarCommand` | source/linux_parameter_setter/loader_user.cpp:84-96 | the scalar branches of `prepareCommand`; `ScalarCommands` states what each carries |
| `LoaderUser.IntArrayCommands` | source/linux_parameter_setter/loader_user.cpp:73-78 | an integer array type carries every item as `stoi` read it, or no command when one throws |
| `LoaderUser.IntArrayCommand` | source/linux_parameter_setter/loader_user.cpp:73-78 | an integer array read item by item through `stoi`; `IntArrayCommands` states what it carries |
| `LoaderUser.DoubleArrayCommands` | source/linux_parameter_setter/loader_user.cpp:73-83 | a floating array type, as intended, carries every item as `stod` read it, or no command when one throws |
| `LoaderUser.DoubleArrayCommand` | source/linux_parameter_setter/loader_user.cpp:73-83 | a floating array read item by item through `stod`; `DoubleArrayCommands` states what it carries |
| `LoaderUser.Float64ArrayLabelLowered` | source/linux_parameter_setter/loader_user.cpp:64-71 | the label of a `double` array lower-cases to "arrayfloat64" |
| `LoaderUser.ArrayPrefixLowered` | source/linux_parameter_setter/loader_user.cpp:64-71 | the array prefix lower-cases to "array" |
| `LoaderUser.Float64LabelLowered` | source/linux_parameter_setter/loader_user.cpp:64-71 | the `double` label lower-cases to "float64" |
| `LoaderUser.Float64ArrayWords` | source/linux_parameter_setter/loader_user.cpp:73-83 | "arrayfloat64" holds "array" and "float" but neither "int" nor "double" |
| `LoaderUser.Float64ArrayUnsetAsWritten` | source/linux_parameter_setter/loader_user.cpp:73-83 | as written, a `double` array parameter gets a command without a value, whatever was typed |
| `LoaderUser.Float64ArraySet` | source/linux_parameter_setter/loader_user.cpp:73-83 | as intended, the same line carries the typed list of doubles |
| `LoaderUser.SplitAtSpace` | source/linux_parameter_setter/loader_user.cpp:123-126 | cutting "a b" at its first space, with no space in a, gives a and b |
| `LoaderUser.SplitLineOfParts` | source/linux_parameter_setter/loader_user.cpp:123-126 | a line "name type value" gives back its three parts; the value may hold spaces |
| `LoaderUser.SplitLineWithoutSpace` | source/linux_parameter_setter/loader_user.cpp:123-126 | a line without a space is the name, the type and the value at once |
| `LoaderUser.SplitLine` | source/linux_parameter_setter/loader_user.cpp:123-126 | the name and the type read from a line hold no space; `SplitLineOfParts` gives the parts back |
| `LoaderUser.BeforeSpace` | source/linux_parameter_setter/loader_user.cpp:123 | `substr(0, find_first_of(' '))`: the text before the first space, or all of it; `SplitAtSpace` states it |
| `LoaderUser.AfterSpace` | source/linux_parameter_setter/loader_user.cpp:124 | `substr(find_first_of(' ') + 1)`: the text after the first space, or all of it since `npos + 1` wraps to 0; `SplitAtSpace` states it |
| `ParameterSetting.Other` | source/vslib/parameters/inc/parameter.h:26 | the other read buffer is 0 or 1 and differs from the current one |
| `ParameterSetting.SetJsonValue` | source/vslib/parameters/inc/parameter.h:321-329 | the setter only changes the write buffer, and a success marks the parameter initialised |
| `ParameterSetting.SetJsonValueDecodes` | source/vslib/parameters/inc/parameter.h:321-329 | except for an enumerator array, the write buffer takes the decoded value, and a value that does not decode changes nothing and is refused with the decoder's warning |
| `ParameterSetting.SyncWrite` | source/vslib/parameters/inc/parameter.h:334-341 | the background buffer takes the write buffer's value; the active buffer and the write buffer keep theirs |
| `ParameterSetting.SyncRead` | source/vslib/parameters/inc/parameter.h:346-353 | the background buffer takes the active buffer's value; the active buffer and the write buffer keep theirs |
| `ParameterSetting.SyncReadIdempotent` | source/vslib/parameters/inc/parameter.h:346-353 | reading back twice is reading back once |
| `ParameterSetting.SchemaCheck` | source/vslib/background/src/parameterSetting.cpp:72-81 | the schema check: an object with "name", "value" and "version", then the version an array, then the name a string: the first violation is reported |
| `ParameterSetting.Validate` | source/vslib/background/src/parameterSetting.cpp:69-109 | a refused command is reported as a schema, version or major-version problem, never as a lookup or setter status |
| `ParameterSetting.NumberEquals` | source/vslib/background/src/parameterSetting.cpp:89 | the library's `==` between a JSON value and an integer holds only for a JSON number |
| `ParameterSetting.ValidateAccepts` | source/vslib/background/src/parameterSetting.cpp:69-109 | validation accepts exactly the commands that pass the schema and carry the current major version |
| `ParameterSetting.Execute` | source/vslib/background/src/parameterSetting.cpp:116-148 | executing a command keeps the registry's names and good parameters, and writes no status exactly when the setter throws |
| `ParameterSetting.Throws` | source/vslib/parameters/inc/parameter.hpp:476-506 | a command throws only after it validated, for a registered enumeration or enumeration-array parameter; `NonStringEnumeratorThrows` and `EnumArrayCommandThrows` say when |
| `ParameterSetting.NonStringEnumeratorThrows` | source/vslib/parameters/inc/parameter.hpp:476-480 | a valid command giving an enumeration anything but a string throws out of `std::string(json_value)` and changes nothing |
| `ParameterSetting.EnumArrayCommandThrows` | source/vslib/parameters/inc/parameter.hpp:499-508 | a valid command for an array of enumerators throws exactly when a run of known names, no longer than the array, is followed by a value that is not a string |
| `ParameterSetting.ExecuteAll` | source/vslib/background/src/parameterSetting.cpp:56-62 | a run of commands keeps the registry's names and writes one status per command, or fewer statuses than commands when one threw |
| `ParameterSetting.Commands` | source/vslib/background/src/parameterSetting.cpp:50-63 | a message holds no command exactly when it is neither an object nor a non-empty array |
| `ParameterSetting.Continue` | source/vslib/background/src/parameterSetting.cpp:58-61 | one more command after a run: nothing happens once the run has thrown; otherwise the registry is the command's and its status is appended unless it throws |
| `ParameterSetting.HaltsAtFirstThrow` | source/vslib/background/src/parameterSetting.cpp:56-62 | a run that threw stopped at its first throwing command: the commands before it ran without throwing and wrote every status, and the registry is what that command's setter left |
| `ParameterSetting.HaltIgnoresLater` | source/vslib/background/src/parameterSetting.cpp:56-62 | once a command has thrown, the commands after it change nothing |
| `ParameterSetting.ExecuteKeepsActive` | source/vslib/background/src/parameterSetting.cpp:116-148 | no command changes what the real-time side reads |
| `ParameterSetting.ExecuteKeepsOthers` | source/vslib/background/src/parameterSetting.cpp:123-139 | a command touches at most the parameter it names |
| `ParameterSetting.IgnoredCommandChangesNothing` | source/vslib/background/src/parameterSetting.cpp:118-131 | an invalid command or an unknown name changes nothing and writes the validation or not-found status |
| `ParameterSetting.UpdatedValueInBackground` | source/vslib/background/src/parameterSetting.cpp:134-141 | the command reports an update iff it is valid, names a parameter and the setter accepts the value; then the parameter is initialised and its background holds the decoded value |
| `ParameterSetting.AcceptedCommandExecutes` | source/vslib/background/src/parameterSetting.cpp:134-141 | a decoded value goes to the write buffer and on to the background buffer, and the status says updated |
| `ParameterSetting.ExecuteAllKeepsActive` | source/vslib/background/src/parameterSetting.cpp:50-63 | processing a whole message never changes what the real-time side reads |
| `ParameterSetting.InvalidCommandSkipped` | source/vslib/background/tests/parameterSettingTest.cpp:271-294 | a command failing validation leaves the registry as the commands before it left it and adds its status, unless an earlier command threw |
| `ParameterSetting.ExecuteAllAppend` | source/vslib/background/src/parameterSetting.cpp:56-62 | executing two runs one after the other is executing them joined, and a run that threw ignores the second |
| `ParameterSetting.LaterCommandsKeep` | source/vslib/background/src/parameterSetting.cpp:116-131 | commands that do not validly name a parameter leave it as it was |
| `ParameterSetting.LastAcceptedWins` | source/vslib/background/tests/parameterSettingTest.cpp:249-268 | the last accepted command for a parameter decides its background buffer when no later command names it |
| `ParameterSetting.FirstFailing` | source/vslib/background/src/parameterSetting.cpp:156-170 | the component returned is the first, in registry order, that fails its check |
| `ParameterSetting.SyncReadAll` | source/vslib/background/src/parameterSetting.cpp:165-168 | every named parameter reads back its active buffer, every other parameter is untouched |
| `ParameterSetting.Process` | source/vslib/background/src/parameterSetting.cpp:50-63 | processing a message on a running task leaves the switch and the components as they were |
| `ParameterSetting.ValidateComponents` | source/vslib/background/src/parameterSetting.cpp:153-175 | the checks keep the switch, the statuses, the registry's names and the component list's length |
| `ParameterSetting.ValidateComponentsOutcome` | source/vslib/background/src/parameterSetting.cpp:153-175 | a warning is returned iff some modified component fails; what the real-time side reads never changes; without a warning the registry is untouched and no component is left modified |
| `ParameterSetting.FailingComponentRolledBack` | source/vslib/background/src/parameterSetting.cpp:159-171 | the first failing component's warning is returned and its parameters' background buffers are rolled back to the active values; other parameters are untouched; earlier components lose their flag, later ones keep theirs |
| `ParameterSetting.TriggerSynchronises` | source/vslib/background/src/parameterSetting.cpp:178-184 | every background buffer takes its active value; the active and write buffers are unchanged |
| `ParameterSetting.Trigger` | source/vslib/background/src/parameterSetting.cpp:178-184 | `triggerReadBufferSynchronisation` keeps the setting well formed and its parameters; `TriggerSynchronises` states the buffers |
| `ParameterSetting.Flip` | source/vslib/background/src/parameterSetting.cpp:39 | `flipState` turns the switch to the other read buffer and changes nothing else |
| `ParameterSetting.ReceiveAsWritten` | source/vslib/background/src/parameterSetting.cpp:23-45 | `receiveJsonCommand` as written; a halted task ignores the message; `AcceptedNotActivatedAsWritten` shows accepted values never activated |
| `ParameterSetting.Receive` | source/vslib/background/src/parameterSetting.cpp:23-45 | `receiveJsonCommand` as intended; a halted task ignores the message; `AcceptedActivated`, `RefusedNotActivated` and `ThrowingMessageHalts` state its outcomes |
| `ParameterSetting.AcceptedNotActivatedAsWritten` | source/vslib/background/src/parameterSetting.cpp:34-43 | as written, a message all checks accept leaves the switch in place, so the real-time side keeps reading the old values |
| `ParameterSetting.AcceptedActivated` | source/vslib/background/src/parameterSetting.cpp:34-43 | as intended, such a message, unless it ends the background task, turns the real-time side to the buffers the commands filled, and the other read buffer then matches |
| `ParameterSetting.ThrowingMessageHalts` | source/vslib/background/src/parameterSetting.cpp:23-45 | a message with a throwing command ends the background task on both versions: no component check, no flip, and what the real-time side reads is unchanged |
| `ParameterSetting.RefusedNotActivated` | source/vslib/background/src/parameterSetting.cpp:34-43 | as intended, a message some check refuses leaves what the real-time side reads as it was |
| `ParameterSetting.CurrentVersionCommand` | source/vslib/background/tests/parameterSettingTest.cpp:56-65 | a command with version [0, 1] passes validation and names its parameter |
| `ParameterSetting.StringVersionCommand` | source/vslib/background/tests/parameterSettingTest.cpp:68-127 | a command whose version is a string fails the schema |
| `ParameterSetting.UnsupportedVersionCommand` | source/vslib/background/src/parameterSetting.cpp:89-106 | a command with major version 99 is refused for its version |
| `ParameterSetting.SingleCommandProcessed` | source/vslib/background/src/parameterSetting.cpp:52-55 | a message holding one command object is that command executed, and ends the background task iff the command throws |
| `ParameterSetting.AcceptedValueNotReadAsWritten` | source/vslib/background/src/parameterSetting.cpp:23-45 | as written, an accepted new value is not what the real-time side reads after the message |
| `ParameterSetting.AcceptedValueRead` | source/vslib/background/src/parameterSetting.cpp:23-45 | as intended, the accepted value is what the real-time side reads after the message |
| `ParameterSetting.FirstFailingIs` | source/vslib/background/src/parameterSetting.cpp:156-170 | the first failing component is the one that fails with none failing before it |
| `ParameterSetting.ParameterSetting.constructor` | source/vslib/background/src/parameterSetting.cpp:23-45 | the background task starts running, with switch 0, the given registry and components, and no statuses |
| `ParameterSetting.ParameterSetting.ValidateJsonCommand` | source/vslib/background/src/parameterSetting.cpp:69-109 | the verdict is true iff `Validate` finds nothing; a refusal writes exactly one status |
| `ParameterSetting.ParameterSetting.ExecuteJsonCommand` | source/vslib/background/src/parameterSetting.cpp:116-148 | the new registry, the status written and whether the background task ends are those of `Execute` |
| `ParameterSetting.ExecuteValid` | source/vslib/background/src/parameterSetting.cpp:123-147 | for a command that validated, the lookup, the setter and the write-buffer synchronisation compute `Execute`: an unknown name, an accepted value and a refused one each give its status, a throwing setter none |
| `ParameterSetting.ParameterSetting.ProcessJsonCommands` | source/vslib/background/src/parameterSetting.cpp:50-63 | an object is executed once, an array element by element up to a command that throws, anything else not at all, as `Process` says |
| `ParameterSetting.ParameterSetting.SynchroniseReadBuffers` | source/vslib/background/src/parameterSetting.cpp:165-168 | the named parameters read back their active buffers, as `SyncReadAll` says |
| `ParameterSetting.ParameterSetting.ValidateModifiedComponents` | source/vslib/background/src/parameterSetting.cpp:153-175 | the new state and the warning are those of `ValidateComponents` |
| `ParameterSetting.ParameterSetting.TriggerReadBufferSynchronisation` | source/vslib/background/src/parameterSetting.cpp:178-184 | the new state is `Trigger` of the old one |
| `ParameterSetting.ReadBackAll` | source/vslib/background/src/parameterSetting.cpp:178-184 | the loop over the registry leaves every parameter read back from the active buffer and no name added or removed |
| `ParameterSetting.ParameterSetting.FlipState` | source/vslib/background/src/parameterSetting.cpp:39 | the switch turns to the other read buffer |
| `ParameterSetting.ParameterSetting.ReceiveJsonCommandAsWritten` | source/vslib/background/src/parameterSetting.cpp:23-45 | the background task as written: flip and read back only after a warning; nothing after a throw |
| `ParameterSetting.ParameterSetting.ReceiveJsonCommand` | source/vslib/background/src/parameterSetting.cpp:23-45 | the background task as intended: flip and read back when every check passes; nothing after a throw |

## Left out

- `mmtool.py` plumbing: the `argparse` command line, file reads and writes, and `configparser` itself are not modelled. The input is an ordered sequence of sections, each a key-to-string map. A duplicate section name, which `configparser` refuses while reading, is reported before resolution.
- `fnmatch` is modelled as `fnmatchcase` on POSIX: `*`, `?` and `[...]` classes with ranges and `!`. Its translation to regular expressions and its cache are not modelled.
- Python's `int(s, 0)` and `str.split()` are modelled on ASCII text: an optional sign, `0x`/`0o`/`0b` prefixes, `_` separators, and as white space the space, `\t`, `\n`, `\v`, `\f`, `\r` and the separators `\x1c` to `\x1f`. Non-ASCII digits and non-ASCII white space are not modelled.
- `stoi` and `stod` (loader_user.cpp) are modelled for decimal text: leading white space, a sign and digits, and for `stod` an optional point and exponent. `stod` yields the exact real, so rounding to a `double` is not modelled, and neither are hexadecimal floats, `inf`/`nan` or the locale.
- `LoaderUser.StoD`: `out_of_range` is raised for a magnitude above the largest `double` and for a non-zero magnitude below the smallest normal one. Whether the C library returns a subnormal result without an error instead depends on the library, and is not modelled.
- Exceptions (`bad_alloc`, `out_of_range`) and most undefined behaviour (a division by raw zero, an overrun index) are modelled as a `None` or `Failure` result, or as an `assert false` branch the preconditions exclude. The two exceptions are the conversion in `CppTypes.Cast` and the limit-integral head, each on its own line below.
- `CppTypes.Cast`: converting a JSON floating-point number to an integer type is undefined behaviour in C++ when the type cannot hold the truncated value. This happens in the implicit conversion at `parameter.hpp:435-446`. The model gives it a defined result instead: truncation toward zero, then wrap-around to the type's width. `verifyTypeAgrees` refuses a floating-point number for an integer parameter right after the conversion, so the wrapped value is never stored. The undefined behaviour itself is not modelled.
- `LimitIntegralCheck.LimitIntegral.Limit`, `LimitIntegralClamp.LimitIntegral.Limit` and `LimitIntegralClamp.LimitIntegral.LimitNonRT` require the head to be inside the buffer, and the code does not keep it there. With the default window length of zero, or in the rejecting variant a window shrunk below the head, the head moves past the end of the buffer. The next call then reads and writes out of bounds. That call is not modelled; `HeadRunsOff`, `ZeroWindowRunsOff` and the Findings table show how the head gets there. `LimitIntegralCheck.LimitIntegral.LimitKeepingSum` has the same requirement and keeps it, since it moves the head by `IntendedHead`.
- `MmMap.ResolvedNested`: nesting is stated only for resolved maps whose sizes are at least zero and whose alignments are positive (`PositiveExtents`). `parse_size` accepts negative values for both, and with them a child can start below its parent (`NegativeSizeEscapesParent`, `NegativeAlignmentEscapesParent`). `IntendedSectionsNest` states nesting for the sections that the intended size and alignment checks accept.
- The `type_error` that `std::string(json_value)` throws for an enumeration given a non-string is caught nowhere up to the background task's loop. It is modelled as the background task ending: `ParameterSetting.Throws` marks the command, no status is written for it, the rest of the message is not executed, no component is checked, and a later message changes nothing. What the C++ runtime does after the exception escapes is not modelled.
- Floating point: doubles are reals. NaN and infinity are not modelled. This concerns the NaN branches of the limit components, `FixedPoint`'s double and float constructors and `toDouble`, and the `bit_cast` of the `uint64_t` frame slots in `RTTask`, whose slots are reals.
- Numeric components not in this model: filters, transforms, PLLs, PID coefficient computation, lookup tables, `limitRate`/`limitRms`, and Jury's stability test in the RST controller.
- The message queues, shared memory, the `main` loops of the Linux tools and the status-message queue are not modelled. Their inputs become parameters. What the code writes to the status queue is a sequence of messages whose texts are not modelled.
- `ParameterSetting.SchemaCheck`: the JSON schema is reconstructed from `parameterSetting.cpp` and its tests, since `jsonCommandSchema.h` is not part of this model. It checks, in order, that the command is an object, that "name", "value" and "version" are present, that the version is an array and that the name is a string. Other constraints the real schema may impose (element types of the version, extra properties) are not checked. The library's exception texts are not modelled. `versions.h`, `bufferSwitch.h` and `componentRegistry.h` are not part of this model. The major version and buffer-switch behaviour is reconstructed from `parameterSetting.cpp` and its tests.
- `ParameterSetting`: a component's `verifyParameters` is an input verdict per component. No visible code sets a component's modified flag, so the flag is an input.
- `ParameterSetting.SetJsonValue`: the three-buffer `setJsonValue` of `parameter.h` is modelled abstractly. It accepts a value iff the value decodes, following the setter of `parameter.hpp`.
- `MmRender.PathSuffix`: the suffix is taken of the `path` option alone. The spec file's directory, which the source joins in front, matters only when the option has no final component of its own (empty, or `.`), and that case is not modelled.
- `MmRender.PlaceholdersRendered`: the general rendering is stated for region names without braces and for templates cut so that no plain piece opens a placeholder. A name holding `{` or `}` can make placeholders overlap; `ReplacePlaceholders` still computes `SubstituteAll` for it.
- `Fsm.Engine.Update`: an `update` whose cascade never ends would loop forever in the source. The model bounds the number of cascaded passes by a `fuel` argument, and every lemma holds for any fuel.
- `FixedPointType`: raw values are unbounded integers. The wrap-around of `T` on overflow is not modelled, since the source never checks for overflow, and `*` requires at least one fractional bit. With zero fractional bits the rounding term shifts by -1, which is undefined.
- `LimitIntegralCheck`, `LimitIntegralClamp` and `LimitRange`: the element type `T` is taken as an unbounded integer. The wrap-around of `T` in the running sum `m_cumulative` of `limitIntegral.hpp`, and in the edge differences `limitRange.h` computes for unsigned types, is not modelled, since the source never checks for overflow. The components are modelled for an integer `T` only; with a floating `T` they compute the same up to rounding, which is not modelled.
- `UserDcFl.TruncToInt`: the frame value is assumed to fit in an `int`. An out-of-range conversion is undefined in C++ and is not modelled.
- `ParameterSetting.Trigger`, `ParameterSetting.Receive` and `ParameterSetting.ReceiveAsWritten`: these functions promise only that the setting stays well formed (and, for `Trigger`, keeps its keys). The methods that compute them and the lemmas named in their rows state what they do.
- Component registry key: `componentTest.cpp:117` expects the registry to use a parentless component's full name. The code, `component.h:62-65`, uses `m_parent_name + m_name`, which is the bare name. The model follows the code (`Component.RegistryKeyIsNotFullName`).
- Hardware register access, interrupts, bmboot and the peripheral components are not modelled. Neither are the root-level legacy prototypes, the Vloop headers that do not compile, the older copies of the modelled files, the build script and the CSV-comparison tests.

## Findings

| source | as written | input that shows it | evidently intended | confidence | as-written member | corrected member |
|---|---|---|---|---|---|---|
| source/utils/ringBufferAllocator.hpp:29-36 | the request in bytes is `sizeof(T) * n` in `uint64_t` and wraps | 2^61 objects of 8 bytes in a 16-byte pool: the product wraps to 0 bytes and the request is served | a request larger than the pool is refused with `bad_alloc` | not executed | `RingBufferAllocator.RequestWrapsToZero` | `RingBufferAllocator.RingBuffer.Allocate`, `RingBufferAllocator.AllocationPlacement` |
| source/vslib/components/inc/limitIntegral.hpp:44-51 | the running sum takes the input before the test and keeps it when the input is rejected | window 2, limit 5, inputs 10 then 1: 10 is refused but stays in the sum, so 1 is refused too though the window holds 0 + 1 | a rejected input leaves the sum equal to the window's contents | not executed | `LimitIntegralCheck.LimitIntegral.Limit`, `LimitIntegralCheck.RejectionPoisonsSum` | `LimitIntegralCheck.LimitIntegral.LimitKeepingSum`, `LimitIntegralCheck.KeptSumAcceptsNext` |
| source/vslib/parameters/inc/parameter.hpp:499-521 | the enum-array setter writes one element per JSON name, with no bound on the index | three names "On" for an array of two enumerators: index 2 is written | a JSON array longer than the parameter is refused | not executed | `Parameter.WrittenIndicesAsWritten`, `Parameter.EnumArrayOverrunAsWritten` | `Parameter.EnumArrayWrite`, `Parameter.EnumArrayOverrunRefused`, `Parameter.EnumArrayPartialWrite`, `Parameter.Parameter.SetEnumArray` |
| source/linux_parameter_setter/loader_user.cpp:73-83 | an array type gets values only if its lower-cased label contains "int" or "double" | type "ArrayFloat64" lower-cases to "arrayfloat64", so the command gets no value | a float array is parsed as an array of doubles | not executed | `LoaderUser.PrepareCommandAsWritten`, `LoaderUser.Float64ArrayUnsetAsWritten` | `LoaderUser.PrepareCommand`, `LoaderUser.Float64ArraySet`, `LoaderUser.DoubleArrayCommands` |
| mmtool.py:108-117 | `parse_size` knows the suffixes `k` and `M` only, though the usage text at line 22 documents `G` as well | `1G`: `int("1G", 0)` raises, so the size is refused | `G` scales by 1024 ** 3, as documented; the resolver keeps the code's behaviour, so that a map the tool refuses is refused in the model too | not executed | `MmLiterals.NoGigaSuffix` | `MmLiterals.DocumentedSize`, `MmLiterals.GigaSuffixScales`, `MmLiterals.OneGiga` |
| source/vslib/background/src/parameterSetting.cpp:34-43 | after processing, the buffers are flipped and resynchronised only when validation returned a warning | one valid command setting a parameter: validation passes, so nothing is flipped and the real-time side never reads the new value | flip and resynchronise when validation passes, as the comment at line 43 says | not executed | `ParameterSetting.ParameterSetting.ReceiveJsonCommandAsWritten`, `ParameterSetting.AcceptedValueNotReadAsWritten`, `ParameterSetting.AcceptedNotActivatedAsWritten` | `ParameterSetting.ParameterSetting.ReceiveJsonCommand`, `ParameterSetting.AcceptedValueRead`, `ParameterSetting.AcceptedActivated`, `ParameterSetting.RefusedNotActivated` |
| mmtool.py:138-149 | `parse_size` accepts a negative `align`, and `align()` then rounds the child's start down, below its parent's cursor | section b in a (a starts at 16, nothing used) with `align = -32`: b starts at 0, before a | an alignment below one is refused; the resolver keeps the code's behaviour, so that the map the tool writes is the one modelled | not executed | `MmMap.NegativeAlignmentEscapesParent` | `MmMap.IntendedAlignment`, `MmMap.IntendedAlignmentKeepsChildInside`, `MmMap.NegativeAlignmentRefused` |
| source/vslib/components/inc/limitIntegral.hpp:44-56 | the head advances by one and wraps only on landing exactly on the window length; the window length defaults to 0 (line 26) and may be set below the head | default window 0, two-slot buffer, limit 100, inputs 1 and 1: both are accepted and the head ends at 2, so the next `limit` reads and writes `m_integral_buffer[2]` | the head goes back to the first slot once it reaches the window length or the end of the buffer | not executed | `LimitIntegralCheck.ZeroWindowOverrun`, `LimitIntegralCheck.HeadRunsOff` | `WindowSum.IntendedHead`, `LimitIntegralCheck.IntendedHeadAgrees`, `LimitIntegralCheck.LimitIntegral.LimitKeepingSum`, `LimitIntegralCheck.ZeroWindowWraps` |
| source/vslib/components/inc/limitIntegral.h:46-53 | the head is brought back by the window length, which defaults to 0 (line 22), so with a zero window it never comes back | default window 0, two-slot buffer, inputs 1 and 1 to `limitNonRT`: the head ends at 2, so the next call reads and writes `m_integral_buffer[2]` | the head goes back to the first slot once it reaches the window length or the end of the buffer | not executed | `LimitIntegralClamp.ZeroWindowOverrun`, `LimitIntegralClamp.ZeroWindowRunsOff` | `WindowSum.IntendedHead`, `LimitIntegralClamp.IntendedHeadAgrees` |
| mmtool.py:151-164 | `parse_size` accepts a negative `size`, and the parent's `used` then goes below zero, which moves the next child's start below the parent | a at 0 of size 64; b in a with `size = -100`; c in a with `size = 1`: the used of a becomes -100 and c starts at -100, before a | a size below zero is refused; the resolver keeps the code's behaviour, so that the map the tool writes is the one modelled | not executed | `MmMap.NegativeSizeEscapesParent` | `MmMap.IntendedSize`, `MmMap.IntendedSectionsNest`, `MmMap.NegativeSizeRefused` |
