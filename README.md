# ocropy grouping, lattice and alignment core in Dafny

This project models the integer and string core of ocropy (with its
`ocrolib` package). This is the part that turns a segmented text line into
a recognition lattice, and a decoded path back into a character
segmentation. It covers:

- the `Grouper` component (`ocrolib/grouper.py`). It holds:
  - the candidate groups of consecutive connected components;
  - their hypothesis lists and space costs;
  - the `segment`/`chr` text format;
  - the two lattice builders, which write weighted transitions with packed `(start<<16)+end` segment ids into an `OcroFST`;
- the second lattice reader, `Lattice.readLattice` (`ocrolib/lattice.py`), with its even/odd state numbering;
- both `compute_alignment`s, `rseg_map`, `intarray_as_unicode` and the cseg part of `recognize_and_align`. These cover the merge of epsilon runs, the label → token table and the pixelwise remap;
- the label-table utilities of `ocrolib/morph.py` and `ocrolib/docproc.py`;
- the padding, squaring and bounding box helpers of `ocrolib/improc.py`;
- the file-variant, class-label, histogram and rectangle helpers of the two `common.py` files;
- the OCR confusion table of `ocropy/lang.py`.

Modelling choices:

- **Costs** are fixed-point integers in units of 1e-4, so `%.4f` then `float` is an exact round trip. Text is a sequence of integer code points (`Text.CodePoint`, 0 .. 0x10FFFF).
- **Exceptions** are `Result`/`Option` values (`Wrappers`).
- **Python operations**: floor division, negative list indices, slicing, `>>16` / `&0xffff` and `amin`/`amax` are written out in `PyOps`.
- **Stateful entities** are classes with `modifies` clauses: `Grouper`, `OcroFST`, `Lattice`. Loops become methods whose `ensures` tie the result or the new state to a specification function, and the source's properties are lemmas about those functions.
- **Images are `array2<int>`.** `find_objects` is modelled as a method whose result is specified by tight label extents (`Boxes`).
- **Given as inputs:**
  - the decoder path (`ins`, `outs`, `costs`) that the native beam search produces;
  - the ligature table;
  - the aspect function of `sl`;
  - the region labelling of `common.label`.

## Model

| member | source | states |
|---|---|---|
| PyOps.FloorDiv | ocrolib/improc.py:64-65 | the result is Python's floor quotient: q*b <= a < q*b+b for b > 0, mirrored for b < 0 |
| PyOps.Low16 | ocrolib/grouper.py:32 | `v & 0xffff` lies in [0, 65536) |
| PyOps.UnpackPack | ocrolib/grouper.py:195 | `>>16` and `&0xffff` give back (start, end) from `(start<<16)+end` when 0 <= end < 65536 |
| PyOps.PackLosesWideEnd | ocrolib/grouper.py:247 | for end >= 65536 the low half no longer equals end |
| PyOps.PyAt | ocrolib/grouper.py:244 | Python indexing: defined exactly for -n <= i < n, negative indices count from the end, otherwise IndexError |
| PyOps.Slice | ocrolib/common.py:606 | `s[a:b]` is `s[a..b]` when a <= b <= len(s), and never longer than s |
| PyOps.MaxOf | ocrolib/grouper.py:120 | `amax` of a non-empty list is one of its elements and bounds all of them |
| PyOps.MinOf | ocrolib/grouper.py:117 | `amin` of a non-empty list is one of its elements and is below all of them |
| Sorting.SortDistinct | ocrolib/lattice.py:83-84 | `sorted(set(s))` is strictly increasing and has exactly the elements of s |
| Sorting.SortedUnique | ocrolib/lattice.py:83-84 | two strictly sorted sequences with the same elements are equal, so the sorted duplicate-free form is unique |
| Sorting.SortInts | ocrolib/grouper.py:61 | `sorted` of integers is a permutation (same multiset) and non-decreasing |
| Sorting.Median | ocrolib/grouper.py:61 | numpy `median` of a non-empty list lies between two of its values |
| Sorting.UniqueOf | ocrolib/morph.py:128 | numpy `unique` is strictly increasing and holds exactly the elements of its input |
| Sorting.IncreasingIndex | ocrolib/morph.py:196 | in an increasing sequence, position k is the only position holding s[k] |
| Sorting.PairIsStrictTotal | ocrolib/morph.py:128-129 | the lexicographic order on pairs is a strict total order |
| Text.Split | ocrolib/grouper.py:210 | the fields of `line.split()` are non-empty and hold no whitespace |
| Text.SplitToken | ocrolib/lattice.py:30 | a non-empty token ending at whitespace or at the end is the first field |
| Text.SplitJoin | ocrolib/grouper.py:199-203 | splitting a line of non-empty fields joined by blanks gives back the fields |
| Text.ReadLinesConcat | ocrolib/grouper.py:209 | `readlines()` of written lines gives back those lines |
| Text.FormatInt | ocrolib/grouper.py:199 | `"%d" % n` is non-empty and holds no whitespace, ':' or '.', so it stays one field and one colon piece |
| Text.FormatInt4 | ocrolib/grouper.py:203 | `"%4d" % n` has width max(4, len("%d" % n)): it ends with `"%d" % n` and every character before that is a space |
| Text.ParseFormatInt | ocrolib/grouper.py:212-215 | `int("%d" % n) == n` for every integer n |
| Text.FormatFixed | ocrolib/grouper.py:199-203 | `"%.4f"` of a fixed-point cost is non-empty and holds no whitespace, so it is one field |
| Text.ParseFormatFixed | ocrolib/grouper.py:217 | `float("%.4f" % x) == x` for every fixed-point cost, negative or not |
| Boxes.Union | ocrolib/grouper.py:48 | `sl.union` contains both boxes and takes each coordinate from one of them |
| Boxes.UnionLeast | ocrolib/grouper.py:48 | the union is the least box containing both |
| Boxes.UnionOpt | ocrolib/grouper.py:42-48 | `sl.union(None, b)` is b |
| Boxes.LabelExtentTight | ocrolib/grouper.py:36 | `find_objects(img)[l-1]` is None exactly when label l is absent; otherwise the box holds every pixel of l and each of its four sides touches one |
| Boxes.LabelCount | ocrolib/grouper.py:36 | the number of entries `find_objects` returns; when positive, it is a label that occurs |
| Boxes.PixelMax | ocrolib/grouper.py:281 | `amax` of a non-empty image is one of its pixels and bounds all of them |
| Boxes.FindObjects | ocrolib/docproc.py:16 | entry l-1 is the extent of label l for l = 1 .. the largest label, and every pixel is at most the number of entries |
| Fst.OcroFst.NewState | ocrolib/grouper.py:240 | `newState` returns the next unused state number and creates it |
| Fst.OcroFst.AddTransition | ocrolib/grouper.py:267 | `addTransition` appends exactly one arc (from, to, output, cost, input) and changes nothing else |
| Fst.OcroFst.SetStart | ocrolib/grouper.py:241 | sets the start state and changes nothing else |
| Fst.OcroFst.SetAccept | ocrolib/grouper.py:242 | adds the state to the accepting states and changes nothing else |
| Grouping.Range | ocrolib/grouper.py:45 | `range(a, b)` for a <= b holds a, a+1, ..., b-1 |
| Grouping.Candidate | ocrolib/grouper.py:42-49 | the run from label i of up to r labels starts at i and holds as many contiguous labels as exist (at most r), all within 1 .. n |
| Grouping.Filter | ocrolib/grouper.py:63 | the width filter keeps a group exactly when it is a single label or its width is below maxwidth times the given median height, and the kept groups stay in their input order (a subsequence) |
| Grouping.Heights | ocrolib/grouper.py:61 | one height per candidate, in order |
| Grouping.RowsShaped | ocrolib/grouper.py:40-59 | every candidate is a run of 1 .. maxrange contiguous labels whose box is the union of its labels' boxes |
| Grouping.CandidatesProps | ocrolib/grouper.py:40-59 | candidates come in strictly increasing (start, length) order, and run (i, r) is among them exactly when it passes the count, gap and aspect tests |
| Grouping.SinglesKept | ocrolib/grouper.py:50 | every single label is a candidate, whatever the parameters |
| Grouping.GroupsProps | ocrolib/grouper.py:61-63 | after the width filter a group survives exactly when it is a candidate that is a single label or narrow enough, so single labels are never dropped; the groups are a subsequence of the candidates and so stay in strictly increasing (start, length) order |
| Grouping.SubsequenceKeys | ocrolib/grouper.py:63 | leaving groups out of a list in strictly increasing (start, length) order keeps the rest in that order |
| Grouping.RowErrStays | ocrolib/grouper.py:55-57 | once a run raises (a zero aspect), every later run length gives the same error |
| Grouping.RowsErrStays | ocrolib/grouper.py:40-57 | once a start label raises, the whole candidate loop gives that error |
| LatticeBuild.GroupCtx | ocrolib/grouper.py:244-250 | group i's context holds its smallest and largest label and their packed id `(start<<16)+end` |
| LatticeBuild.LabelStates | ocrolib/grouper.py:240 | the states of labels 1 .. final are created first: label l gets state base+l-1 |
| LatticeBuild.HypsFailedStays | ocrolib/grouper.py:251-274 | once a hypothesis raises, the later hypotheses of the group add nothing |
| LatticeBuild.GroupsFailedStays | ocrolib/grouper.py:243-274 | once a group raises, the later groups add nothing |
| LatticeBuild.LatticeArcs | ocrolib/grouper.py:243-275 | `getLatticeAsFST` only appends arcs; every new arc is a space arc (output 32, input 0, costing some group's `yes`, below 1000.0) or a character arc carrying the group's packed id |
| LatticeBuild.GuardedBelowCeiling | ocrolib/grouper.py:266-273 | with the space branch also guarded, no added arc costs 1000.0 or more |
| LatticeBuild.AsWrittenOverCeiling | ocrolib/grouper.py:268-272 | as written, an added arc at or above 1000.0 can only be a character arc of a one-code-point class, emitting that code point at exactly the class cost |
| LatticeBuild.CharArcUnpacks | ocrolib/grouper.py:247-267 | a character arc's input gives back its group's first and last label with `>>16` and `&0xffff` when the last label is below 65536 |
| LatticeBuild.LatticeStartAccept | ocrolib/grouper.py:237-242 | a successful build makes states[1] the start and states[final] accepting, with final = largest label + 1; it fails when that disagrees with the segmentation's largest label |
| LatticeBuild.HypFresh | ocrolib/grouper.py:255-271 | a hypothesis of n > 0 code points creates n-1 intermediate states, plus one space state when the space branch is taken |
| LatticeBuild.HypChain | ocrolib/grouper.py:254-274 | an unpruned hypothesis with no space branch adds exactly the chain of its code points from states[start] through fresh states to states[end+1] |
| LatticeBuild.ChainCost | ocrolib/grouper.py:263-265 | that chain costs cost+no in total: the class cost on the first arc and the no-space cost on the last, cost+no for one code point |
| LatticeBuild.LigLatticeArcs | ocrolib/grouper.py:285-312 | with non-negative costs, `getLatticeLigAsFST` only appends arcs below 1000.0: space arcs and arcs writing a hypothesis' ligature code |
| LatticeBuild.LigHypShape | ocrolib/grouper.py:295-311 | one ligature hypothesis adds at most one direct arc states[start]→states[end+1] costing cost+no (only if below 1000.0), and a space branch (cost, then yes) only if cost+yes is below 1000.0 |
| LatticeBuild.LigLatticeSucceeds | ocrolib/grouper.py:281-299 | a build that does not raise had a segmentation, a known non-negative ligature code for every class, and no group without labels; start and accept are states[1] and states[final] |
| LatticeBuild.AsWrittenArcAtCeiling | ocrolib/grouper.py:264-272 | counterexample: a one-code-point class of cost 1000.0 with yes < 1000 gets its arc into the space state at cost 1000.0 |
| LatticeBuild.GuardedPrunesIt | ocrolib/grouper.py:264-272 | the guarded builder adds no arc for that input |
| LatticeText.SaveFrom | ocrolib/grouper.py:191-203 | writing from group i reaches the end exactly when no later group has an empty label list (`amin` of an empty list raises) |
| LatticeText.SplitColon2 | ocrolib/grouper.py:199-214 | two integers joined by ':' split back into the two |
| LatticeText.SplitColon4 | ocrolib/grouper.py:200-215 | four integers joined by ':' split back into the four |
| LatticeText.SegmentFieldsRow | ocrolib/grouper.py:199-217 | the fields of a written `segment` line convert back to its index, label range, box and space costs |
| LatticeText.ChrFieldsRow | ocrolib/grouper.py:203-227 | the fields of a written `chr` line convert back to its indices, cost and class |
| LatticeText.SavedLines | ocrolib/grouper.py:199-203 | every text `saveLattice` writes is a list of lines without inner newlines |
| LatticeText.SavedLinesRows | ocrolib/grouper.py:189-228 | for a savable lattice (parallel lists, non-empty label lists, every class non-empty and free of whitespace), the lines `saveLattice` writes parse back to the rows it meant |
| LatticeText.LoadSave | ocrolib/grouper.py:189-228 | for a savable lattice (as above), `loadLattice(saveLattice())` gives back the groups in order, with label ranges start .. end and boxes, every hypothesis list, and the space costs; the no-space cost reads back as 0 when both exceeded 9999 |
| LatticeText.SegmentOutOfOrder | ocrolib/grouper.py:212-213 | a `segment` line whose index is not the number of groups read so far fails with an assertion naming the line |
| LatticeText.ChrOutOfOrder | ocrolib/grouper.py:222-225 | a `chr` line for a group other than the last one, or out of turn within it, fails with an assertion naming the line |
| GrouperClass.ClassText | ocrolib/grouper.py:176-183 | an int class in 0 .. 0x10FFFF becomes that code point, a negative one raises ValueError (`unichr`), one of 0x110000 or more raises "class out of range", a string is kept, any other type fails the assertion |
| GrouperClass.CorrespondencesExact | ocrolib/grouper.py:28-34 | with segment labels below 32000, `pre2seg` holds exactly the (preferred, segment) pairs that cover more than five pixels |
| GrouperClass.Grouper.constructor | ocrolib/grouper.py:16-23 | the default parameters (4, 2, 2.5, 2.5), no `pre2seg`, no segmentation, no groups |
| GrouperClass.Grouper.ClearLattice | ocrolib/grouper.py:86-89 | one empty hypothesis list and the space costs (999999, 999999) per group; the groups are unchanged |
| GrouperClass.Grouper.SetClass | ocrolib/grouper.py:171-184 | appends (cost, class) to the list of group i only; a bad class raises its error, an index outside the list (Python indexing) raises IndexError, and either leaves the lists unchanged |
| GrouperClass.Grouper.SetSpaceCost | ocrolib/grouper.py:185-188 | replaces the space costs of group i only; a bad index raises and changes nothing |
| GrouperClass.Grouper.Start | ocrolib/grouper.py:115-117 | the smallest label of group i; IndexError or ValueError for a missing group or an empty label list |
| GrouperClass.Grouper.IsCombined | ocrolib/grouper.py:124-133 | False without a correspondence list; IndexError exactly when there is one and i is no group; True when the group's labels meet two different preferred labels, and then they meet more than one |
| GrouperClass.Grouper.IsSplit | ocrolib/grouper.py:134-144 | False without a correspondence list; fails exactly when `isCombined` fails, with IndexError; True only for a group that is not combined and whose labels differ from the regular labels of its preferred label |
| GrouperClass.Grouper.End | ocrolib/grouper.py:118-120 | the largest label of group i, with the same errors |
| GrouperClass.Grouper.StartEndOfRun | ocrolib/grouper.py:115-120 | for a run of consecutive labels, start and end are its first and last label |
| GrouperClass.Grouper.CombinedNotSplit | ocrolib/grouper.py:124-144 | a group is never both combined and split, and the two fail together |
| GrouperClass.Grouper.WholePreferred | ocrolib/grouper.py:124-144 | a group made of exactly the segments of one preferred segment is neither combined nor split |
| GrouperClass.Grouper.SaveLattice | ocrolib/grouper.py:189-203 | the lines written, and whether writing reached the end, are `Save` of the lattice data |
| GrouperClass.Grouper.SaveStore | ocrolib/grouper.py:191-203 | the two writing loops compute `Save` of the data |
| GrouperClass.Grouper.SaveGroup | ocrolib/grouper.py:192-203 | writing one group (its `segment` line and its `chr` lines) moves exactly that group's lines from the rest of `Save` to the lines written, and does not change whether writing reaches the end |
| GrouperClass.Grouper.SaveHyps | ocrolib/grouper.py:201-203 | the `chr` loop appends exactly the group's `chr` lines, one per hypothesis in order, to the lines already written |
| GrouperClass.Grouper.LoadLattice | ocrolib/grouper.py:204-232 | the lists read are `Load` of the text; the first bad line stops the loop with the lists as they were before that line; wherever it stops, the lists stay parallel |
| LatticeText.LoadFromParallel | ocrolib/grouper.py:204-228 | reading any rows from parallel lists (one group, one cost list and one space-cost pair per segment) leaves the lists parallel, wherever reading stops |
| LatticeText.LoadParallel | ocrolib/grouper.py:204-228 | the lists read from any text are parallel |
| GrouperClass.Grouper.SetCSegmentation | ocrolib/grouper.py:69-85 | one group per label 1 .. N, in order: group k has the box of label k+1 and labels [k+1]; the lattice is cleared and N is returned |
| GrouperClass.Grouper.SetSegmentation | ocrolib/grouper.py:24-68 | the groups are the candidate groups after the width filter, the lattice is cleared, their number is returned, and `pre2seg` comes from the preferred segmentation; a raise leaves the groups as they were |
| GrouperClass.Grouper.SegMax | ocrolib/grouper.py:238-281 | `amax(self.segmentation)`: absent without a segmentation, ValueError on an empty image, otherwise the largest pixel |
| GrouperClass.Grouper.GetLatticeAsFST | ocrolib/grouper.py:233-275 | the FST (given or fresh) ends with the contents `Lattice` specifies, and an error is reported when a step raises |
| GrouperClass.Grouper.GetLatticeLigAsFST | ocrolib/grouper.py:276-313 | the same for `LigLattice` with the ligature table |
| GrouperClass.Grouper.CandidateLoop | ocrolib/grouper.py:39-59 | the loop over start labels computes the candidates `Grouping.Candidates` specifies |
| GrouperClass.Grouper.RowLoop | ocrolib/grouper.py:41-59 | the loop over run lengths computes `Grouping.Row` |
| GrouperClass.Grouper.Run | ocrolib/grouper.py:42-49 | the innermost loop computes the union box, the largest gap and the labels of the run |
| GrouperClass.Grouper.RunOf | ocrolib/grouper.py:42-49 | the group built from boxes i .. i+r-1 (cut at the last box) is the candidate `Grouping.Candidate` specifies: the union of those boxes and their labels |
| GrouperClass.Grouper.Objects | ocrolib/grouper.py:36 | the box list is `Extents` of the labelled image: one tight box per label 1 .. max, in label order |
| GrouperClass.Grouper.KeepRun | ocrolib/grouper.py:50-57 | the count, gap and aspect tests of a run, with ZeroDivisionError for a zero aspect |
| GrouperClass.Grouper.GroupsOf | ocrolib/grouper.py:39-63 | the candidates after the width filter are `Grouping.Groups` |
| GrouperClass.NewLabelStates | ocrolib/grouper.py:240 | `[-1] + [newState() for ...]` computes `LabelStates` |
| GrouperClass.AddChar | ocrolib/grouper.py:256-274 | one code point's arcs and space branch, as `LatticeBuild` specifies |
| GrouperClass.AddHyp | ocrolib/grouper.py:252-274 | one hypothesis's chain, as specified |
| GrouperClass.AddHyps | ocrolib/grouper.py:251-274 | a group's hypotheses, as specified |
| GrouperClass.AddGroups | ocrolib/grouper.py:243-274 | the loop over the groups, as specified |
| GrouperClass.AddLigHyp | ocrolib/grouper.py:294-312 | one ligature hypothesis, with RecognitionError for an unknown or negative code |
| GrouperClass.AddLigGroup | ocrolib/grouper.py:286-312 | one group of the ligature builder |
| GrouperClass.AddLigHyps | ocrolib/grouper.py:293-312 | the loop over one group's hypotheses builds exactly the automaton `LigHypsUpTo` specifies, and stops at the first RecognitionError with the automaton built so far |
| GrouperClass.AddLigGroups | ocrolib/grouper.py:285-312 | the loop over the groups of the ligature builder |
| LatticeGraph.AddEdgeOf | ocrolib/lattice.py:21-24 | `addEdge` adds both endpoints to the states and appends the edge to `edges[start]`; nothing else changes and the graph stays well formed |
| LatticeGraph.StartingFive | ocrolib/lattice.py:44-50 | the five auxiliary edges split by start: two at 2*first, three at 2*last+1 |
| LatticeGraph.SegmentEdgesAdded | ocrolib/lattice.py:36-50 | st_start=2*first gets the skip ("") and replace ("~") edges, st_extra=2*last+1 gets exactly the space, no-space and insert edges to 2*last+2, and the three states join the set |
| LatticeGraph.SegmentRecord | ocrolib/lattice.py:31-50 | a segment record adds the five edges only when st_extra has none, with both space costs clipped to maxws; otherwise it only remembers the segment |
| LatticeGraph.SegmentOnce | ocrolib/lattice.py:42 | a second record ending at the same segment adds nothing |
| LatticeGraph.ChrRecord | ocrolib/lattice.py:51-53 | a chr record appends one edge 2*first→2*last+1 with seg (first, last), class f[4] and cost min(c+nows, maxcost)+nows; before any segment record it fails |
| LatticeGraph.ReadStepKinds | ocrolib/lattice.py:30-53 | a line is a segment record, a chr record, or ignored, by its first field; an empty line raises IndexError |
| LatticeGraph.ReadAllSound | ocrolib/lattice.py:25-54 | wherever reading stops, every edge hangs under its own start, ends in a state, and costs at most the mismatch cost, the clipped space cost, or the clipped character cost plus nows |
| LatticeGraph.ReadAllWellFormed | ocrolib/lattice.py:22-27 | the states read are strictly increasing, and every key of `edges` is a state |
| LatticeGraph.LeastGreatest | ocrolib/lattice.py:77-80 | `startState`/`lastState` fail on no states and are otherwise the least and greatest state |
| LatticeGraph.Lattice.StartState | ocrolib/lattice.py:77-78 | ValueError exactly when there are no states; otherwise, on a well-formed lattice, a state that is at or below every state (the minimum) |
| LatticeGraph.Lattice.LastState | ocrolib/lattice.py:79-80 | ValueError exactly when there are no states; otherwise, on a well-formed lattice, a state that is at or above every state (the maximum) |
| LatticeGraph.ClassesHolds | ocrolib/lattice.py:81-84 | `classes()` is sorted, duplicate-free and holds exactly the classes of the edges; an empty dictionary makes `reduce` raise |
| LatticeGraph.Lattice.Classes | ocrolib/lattice.py:81-84 | TypeError exactly when there are no edge lists (`reduce` of an empty list); otherwise, on a well-formed lattice, the classes in strictly increasing order, holding exactly the classes of the edges |
| LatticeGraph.Lattice.constructor | ocrolib/lattice.py:15-20 | the limits default to 20.0, 20.0 and 30.0, and `accept` is unset |
| LatticeGraph.Lattice.AddEdge | ocrolib/lattice.py:21-24 | the new states and edges are `AddEdgeTo` of the old ones |
| LatticeGraph.Lattice.ReadSegment | ocrolib/lattice.py:31-50 | a segment record as `SegmentRecord` specifies |
| LatticeGraph.Lattice.ReadChr | ocrolib/lattice.py:51-53 | a chr record as `ChrRecord` specifies |
| LatticeGraph.Lattice.ReadLine | ocrolib/lattice.py:30-53 | one pass of the loop body; the graph is `ReadStep` of the old one |
| LatticeGraph.Lattice.ReadLattice | ocrolib/lattice.py:25-54 | resets the states and edges and reads every line, stopping at the first exception; the graph is `ReadAll` of the lines |
| LatticeGraph.Lattice.IsAccept | ocrolib/lattice.py:55-58 | on the first call `accept` becomes [lastState()]; the answer is whether i is in it, and later calls keep that list |
| CommonHelpers.LastIndex | ocrolib/common.py:143 | the index of the last occurrence of c, or -1 when there is none |
| CommonHelpers.AllSplitExt | ocrolib/common.py:141-147 | the parts concatenate to the path, the cut is at the first '.' after the last '/', and the extension holds no '/' |
| CommonHelpers.AllSplitExtOf | ocrolib/common.py:141-147 | the split is unique: a base whose last component has no '.' followed by a '/'-free extension starting with '.' is exactly what is returned for their concatenation |
| CommonHelpers.AllSplitExtExample | ocrolib/common.py:142 | "a/b.c.d" splits into "a/b" and ".c.d" |
| CommonHelpers.GtextAgrees | ocrolib/common.py:192-203 | the corrected and the as-written `gtext` agree on every name that does not end in ".rseg.png" or ".cseg.png" |
| CommonHelpers.GtextOfFvariant | ocrolib/common.py:192-230 | round trip: `gtext` of the variant `fvariant` names is the ground-truth suffix that was asked for, for every kind |
| CommonHelpers.FvariantKeepsSuffix | ocrolib/common.py:210-214 | with no gt given, the variant carries the same ground-truth suffix as fname |
| CommonHelpers.VariantExt | ocrolib/common.py:217-229 | every variant name is the base followed by a '/'-free extension starting with '.' |
| CommonHelpers.FvariantBase | ocrolib/common.py:217-229 | with an explicit suffix, every known kind gives a name whose base is that of fname |
| CommonHelpers.FvariantUnknownKind | ocrolib/common.py:218-230 | `fvariant` raises exactly for a kind other than line, png, rseg, cseg, costs, fst and txt |
| CommonHelpers.GtextAsWrittenReadsRseg | ocrolib/common.py:200-202 | counterexample: as written, the plain rseg variant reads back with suffix "rseg"; the corrected `Gtext` gives "" |
| CommonHelpers.FvariantAsWrittenDropsDot | ocrolib/common.py:213-219 | counterexample: as written, `fvariant("a.gt.txt", "png")` pastes the suffix without its '.', giving "agt.png" |
| CommonHelpers.CheckValidClassLabel | ocrolib/common.py:81-89 | every rejection raises BadClassLabel |
| CommonHelpers.ValidLabelChars | ocrolib/common.py:81-89 | a label passes iff it is unicode with every character above \x20, or str with every character in \x21..\x7e; any other type is rejected |
| CommonHelpers.ValidLabelIsToken | ocrolib/common.py:81-89 | a str label that passes also passes as unicode, and a valid label holds no whitespace, so it is one field of a `chr` line |
| CommonHelpers.Chist | ocrolib/common.py:44-49 | the (count, value) pairs are strictly decreasing, and there is exactly one pair (occurrences of c in l, c) for each value c of l |
| CommonHelpers.RectUnionHolds | ocrolib/common.py:555-558 | the corrected union contains every rectangle |
| CommonHelpers.RectUnionLeast | ocrolib/common.py:555-558 | every rectangle that contains all of a non-empty list contains their union |
| CommonHelpers.RectUnionAsWrittenMixesColumns | ocrolib/common.py:558 | counterexample: as written, the union of the single box (0,2,0,3) is (0,0,2,3), which does not contain it |
| Rects.FlipFlip | ocropy/common.py:153-154 | flipping y twice gives it back, and flipping reverses order |
| Rects.Rect2Raster | ocropy/common.py:150-155 | the columns are the x values; the rows are the flipped y values, swapped so the top row comes first |
| Rects.Raster2Rect | ocropy/common.py:157-160 | the rectangle's x values are the columns and its y values the flipped rows |
| Rects.RasterRoundTrip | ocropy/common.py:150-160 | for a fixed height, `raster2rect` and `rect2raster` are inverses |
| Rects.MathRoundTrip | ocropy/common.py:162-169 | `math2rect` and `rect2math` are inverses |
| SegMaps.AsUnicodeOk | ocrolib/common.py:474-480 | the conversion succeeds exactly when every nonzero entry is a code point, yields one character per nonzero entry, and otherwise fails with the given error |
| SegMaps.AsUnicodeAppend | ocropy/common.py:965-970 | converting a concatenation joins the converted parts |
| SegMaps.AsUnicodeSingle | ocropy/common.py:968-969 | a 0 entry gives nothing; a code point gives its character |
| SegMaps.IntArrayAsUnicode | ocropy/common.py:965-970 | the loop computes `AsUnicode` |
| SegMaps.Clip | ocrolib/common.py:624 | a numpy slice bound counts negative values from the end and is clipped to 0..n |
| SegMaps.FillSlice | ocrolib/common.py:624 | after `a[lo:hi] = v` the array is `Fill` of its old contents: the clipped range holds v, the rest is unchanged |
| SegMaps.PaintedAt | ocrolib/common.py:620-624 | label p maps to the number of the last token whose range holds it, and to 0 when no token does |
| SegMaps.PaintedRange | ocrolib/common.py:620-624 | every painted entry is a token number: between 0 and the number of tokens |
| SegMaps.Paint | ocropy/common.py:1064-1068 | the painting loop computes `Painted` |
| SegMaps.Remap | ocrolib/common.py:630-633 | `cseg[i,j] = rmap[rseg[i,j]]` for every pixel, and IndexError when some pixel is no index into rmap |
| SegMaps.RemapRow | ocropy/common.py:1024-1027 | one row of `cseg[i,j] = rmap[rseg[i,j]]`: it succeeds exactly when every pixel of the row is an index into rmap, then writes the looked-up value at every pixel of the row, and leaves every other row unchanged |
| SegMaps.WriteRangeOf | ocropy/common.py:991-992 | `for j in range(lo, hi+1): m[j] = v` succeeds unless j leaves [-|m|, |m|), and writes v at every position named |
| SegMaps.WriteRangeIsFill | ocropy/common.py:991-992 | inside the table, that loop is a slice assignment |
| SegMaps.RsegMap | ocropy/common.py:972-993 | the loops of `rseg_map` compute its specification |
| SegMaps.DecodeAll | ocropy/common.py:978-983 | the loop splits every label into the pair (label >> 16, label & 0xffff), in order |
| SegMaps.NumberPairs | ocropy/common.py:985-992 | the numbering loop succeeds exactly when `Numbered` does and then leaves its table; it fails exactly where a written index leaves the table |
| SegMaps.WriteIndices | ocropy/common.py:991-992 | the inner loop succeeds exactly when `WriteRange` does and then leaves its table |
| SegMaps.RsegMapPainted | ocropy/common.py:972-993 | for labels with no negative start, `rseg_map` has size max end + 1, and label p holds the number (from 1) of the last pair with both parts nonzero whose range holds it, or 0 |
| SegMaps.DecodedBounds | ocropy/common.py:981-984 | non-negative labels decode to non-negative starts and to ends below the table size |
| OcrolibAlign.RunEnd | ocrolib/common.py:589-602 | the run starting at i ends at the first later entry whose output is not epsilon, or at the end |
| OcrolibAlign.ScanRun | ocrolib/common.py:589-602 | the inner loop stops where `RunEnd` says and computes the run's range `RunSeg` |
| OcrolibAlign.RunSegBounds | ocrolib/common.py:590-599 | a run's range is the smallest range holding the leading entry's range and that of every later entry with a nonzero label |
| OcrolibAlign.RunsTile | ocrolib/common.py:587-608 | the runs tile 0 .. n-1 without overlap; each is one leading entry followed only by epsilon entries |
| OcrolibAlign.TilingOrdered | ocrolib/common.py:587-608 | the runs lie inside the range, in order, without overlap |
| OcrolibAlign.RunHeads | ocrolib/common.py:595 | every run but the first starts with a non-epsilon output |
| OcrolibAlign.TwoRunsExample | ocrolib/common.py:595-603 | the path [65, 0, 66, 0] has two runs, so it gives two tokens |
| OcrolibAlign.RunCodes | ocrolib/common.py:595-601 | a run's codes are those of its leading entry, because the append branch cannot be reached |
| OcrolibAlign.ToksFails | ocrolib/common.py:603 | the merge fails with TypeError exactly when some run's leading code is unknown to the ligature table |
| OcrolibAlign.ToksDrops | ocrolib/common.py:603-607 | otherwise it yields the tokens of all runs with the empty ones dropped, in order |
| OcrolibAlign.SentinelAt | ocrolib/common.py:583-607 | `result_l`, `costs_l` and `segs` have equal length and start with ("", 0, (-1,-1)), followed by the tokens' entries in order |
| OcrolibAlign.MergeRuns | ocrolib/common.py:587-608 | the merge loop computes the sentinel-headed lists of `Toks` |
| OcrolibAlign.TilingSum | ocrolib/common.py:606 | the costs of the runs add up to the cost of the whole range |
| OcrolibAlign.SentinelCost | ocrolib/common.py:653 | `sum(costs_l)` is the tokens' total cost: the sentinel costs nothing |
| OcrolibAlign.NothingDropped | ocrolib/common.py:603-653 | when every code looked up is known and non-empty, every run is kept and `sum(costs_l)` is the runs' total |
| OcrolibAlign.MergedCost | ocrolib/common.py:606-653 | then the total `cost` is the cost of the whole decoder path |
| OcrolibAlign.OutputIsCodes | ocrolib/common.py:603-651 | with a plain ligature table, `"".join(result_l)` is the path's non-epsilon codes, in order |
| OcrolibAlign.MaxLabelOf | ocrolib/common.py:619 | `amax(rseg)` is absent exactly for an empty image, and otherwise is the value of some pixel and bounds every pixel |
| OcrolibAlign.ComputeAlignment | ocrolib/common.py:560-660 | errors of the merge and of the table come back unchanged; otherwise `cseg[p] == rmap[rseg[p]]` with the rmap of `AlignTable` (size max(rseg)+1, tokens with a zero start or end skipped), `output` is the join of `output_l`, and `cost == sum(costs_l)`; IndexError exactly when a pixel is outside the table |
| OcrolibAlign.AlignTable | ocrolib/common.py:575-626 | AssertionError when the input and output lists differ in length; otherwise three lists of equal length headed by the sentinel ("", 0, (-1,-1)), and an rmap of size `amax(rseg)` + 1 with rmap[0] == 0 and every entry a valid token index |
| OcrolibAlign.ComputeTable | ocrolib/common.py:575-626 | the merge loop and the painting loop together compute `AlignTable` |
| OcrolibAlign.RmapTable | ocrolib/common.py:619-626 | the rmap has size `amax(rseg)` + 1, rmap[0] == 0, and every entry indexes the merged lists |
| OcrolibAlign.PaintTable | ocrolib/common.py:619-626 | the painting loop computes `RmapTable` |
| OcrolibAlign.RunSegNonNegative | ocrolib/common.py:590-599 | non-negative input labels give every run a non-negative range |
| OcrolibAlign.RmapZero | ocrolib/common.py:623-626 | with non-negative input labels, `assert rmap[0]==0` cannot fail |
| OcropyAlign.KeptIsText | ocropy/common.py:1049-1059 | for an encodable path, the rebuilt text is what `intarray_as_unicode` gives |
| OcropyAlign.NoneKept | ocropy/common.py:1062 | `assert len(segs)>0` fails exactly on an all-epsilon path |
| OcropyAlign.Collect | ocropy/common.py:1053-1060 | the loop keeps, in order, the code and the decoded (start, end) of every entry with a positive output |
| OcropyAlign.ComputeAlignment | ocropy/common.py:1041-1084 | errors of the kept entries and of the table come back unchanged; otherwise the text and ranges kept, `cseg[p] == rmap[rseg[p]]` with the rmap of `AlignmentTable` (size max bound + 1, 1-based tokens, ranges ending at 0 skipped), and `cost == sum(costs)`; IndexError exactly when a pixel is outside the table |
| OcropyAlign.TableLabels | ocropy/common.py:1063-1068 | label p maps to the number of the last character whose range (clipped) holds it, or to 0 |
| OcropyAlign.RecognizeAndAlign | ocropy/common.py:1003-1039 | the output text and `cost == sum(costs)`; cseg is None when `CsegTable` gives no table (nocseg, or a `rseg_map` of at most one entry), otherwise the pixelwise remap, with IndexError for a pixel outside the table |
| OcropyAlign.NoCseg | ocropy/common.py:1019-1029 | with non-negative labels, the cseg is None exactly when `nocseg` is set or every decoded end is 0 |
| Morph.CheckBinaryOf | ocrolib/morph.py:38-42 | `check_binary` passes exactly for dtype 'B', 'i' or bool with all values in [0, 1], and otherwise fails the corresponding assertion |
| Morph.PackPair | ocrolib/morph.py:127-129 | `l1*q+l2` decodes with `//q` and `%q` when 0 <= l2 < q, and the packed order is the lexicographic order of the pairs |
| Morph.CorrespondencesFails | ocrolib/morph.py:124-128 | `correspondences` succeeds exactly for non-empty images with non-negative labels and labels2 < 100000 |
| Morph.CorrespondencesOf | ocrolib/morph.py:121-130 | a pair is in the result exactly when some pixel carries it |
| Morph.CorrespondencesSorted | ocrolib/morph.py:128-129 | the pairs are strictly increasing in lexicographic order |
| Morph.LastIsLargest | ocrolib/morph.py:137 | the last pair for a region has the largest label among the region's pairs |
| Morph.VoteOf | ocrolib/morph.py:149-151 | a region's vote is 0 with no pair, the label with one pair, and `oops` with more |
| Morph.LastMeaning | ocrolib/morph.py:132-139 | the table entry `propagate_labels_simple` gives a region is the largest label it meets |
| Morph.LastTable | ocrolib/morph.py:136-138 | the table has one entry per region label, 0 for the background, and for each region the entry `LastFor` gives, the largest label it meets |
| Morph.VoteMeaning | ocrolib/morph.py:141-154 | the vote is 0 iff the region meets only background, `oops` iff it meets two different nonzero labels, otherwise the one nonzero label it meets |
| Morph.VoteTable | ocrolib/morph.py:147-153 | the table has one entry per region label, 0 for the background, and for each region its vote with `oops` replaced by `conflict` |
| Morph.PropagateLabelsSimple | ocrolib/morph.py:132-139 | region 0 maps to 0; any other pixel gets the largest label its region meets |
| Morph.PropagateLabels | ocrolib/morph.py:141-154 | region 0 maps to 0; a region meeting one nonzero label gets it, one meeting two or more gets `conflict`, one meeting only background gets 0 |
| Morph.RenumberCheckOf | ocrolib/morph.py:192-193 | the checks pass exactly for non-empty arrays with values in 0 .. 2**25 |
| Morph.RenumberLabelsOrdered | ocrolib/morph.py:189-200 | every value maps to its rank among the distinct values; with `correspondence`, `labels[out[p]] == a[p]` and labels is `unique(a)` |
| Morph.InverseTable | ocrolib/morph.py:195-196 | `renum[labels] = arange(len(labels))` gives a table of size max + 1 with `renum[labels[k]] == k` for every k |
| Morph.RenumberedOrder | ocrolib/morph.py:189-200 | a[p] < a[q] iff out[p] < out[q], equal values get equal numbers, and 0 .. k-1 are all used |
| Morph.InsertIndexOf | ocrolib/morph.py:209 | inserting index i into an index list sorted by key adds exactly i and keeps the list sorted by key, ties in index order |
| Morph.ArgSortFromOf | ocrolib/morph.py:209 | the indices sorted so far are exactly 0 .. n-1, each once, in key order |
| Morph.PyArgSortOf | ocrolib/morph.py:206-209 | `pyargsort` is a permutation of `range(len(seq))`, the keys in its order are non-decreasing, and ties keep index order |
| Morph.ScatterAt | ocrolib/morph.py:217 | after `segmap[j] = i` for (i, j) in order, entry order[i] holds i |
| Morph.RanksOf | ocrolib/morph.py:215-217 | the ranks are a permutation of 0 .. n-1, and label a ranks below b exactly when its key is smaller, or equal with a < b |
| Morph.RankOrder | ocrolib/morph.py:213-217 | the order of two labels' ranks is that of their keys, ties by label |
| Morph.PixelMaxCount | ocrolib/morph.py:212-216 | when the largest pixel is non-negative, it is the number of entries `find_objects` reports |
| Morph.Enumerate | ocrolib/morph.py:217 | the loop computes the scatter table |
| Morph.Relabel | ocrolib/morph.py:218 | `segmap[seg]` gives each pixel its table entry by Python indexing, and IndexError when a pixel is outside the table |
| Morph.XcenterSegmap | ocrolib/morph.py:212-217 | the table computed is `XcenterTable` |
| Morph.RenumberByXcenter | ocrolib/morph.py:211-218 | the relabelled image is the table looked up at every pixel, with the errors of the table and of the lookup |
| Morph.XcenterPermutation | ocrolib/morph.py:211-218 | the table has one entry per label 0 .. N and is a permutation of 0 .. N |
| Morph.XcenterOrder | ocrolib/morph.py:213-217 | labels are ranked by box x-centre, ties by label |
| Morph.XcenterBackground | ocrolib/morph.py:212 | background stays 0 |
| DocProc.UInt32 | ocrolib/docproc.py:15 | the cast to uint32 lands in [0, 2**32) and keeps values that already fit |
| DocProc.SegBoxes | ocrolib/docproc.py:9-26 | the boxes of the present labels of the cast image, in raster or math form |
| DocProc.BoxListOf | ocrolib/docproc.py:19-25 | one box per present label, in increasing label order, with absent labels skipped; math mode gives (h-r1-1, h-r0-1, c0, c1) of the same box |
| DocProc.MathBox | ocrolib/docproc.py:22-23 | the math box keeps the columns and the height of the box and mirrors its rows about the image's middle row |
| DocProc.MathBoxTwice | ocrolib/docproc.py:22-23 | mirroring twice gives back the raster box |
| DocProc.ObjectLabels | ocrolib/docproc.py:16-20 | the labels listed are exactly the positive labels that occur |
| DocProc.ConsecutiveBoxes | ocrolib/docproc.py:19-25 | with consecutive labels, raster entry k is the tight extent of label k+1 |
| ImProc.Place | ocrolib/improc.py:49-50 | a zero array holding the image at the given offset |
| ImProc.PadTo | ocrolib/improc.py:38-51 | fails `wd>=0` or `hd>=0` when the target is smaller; otherwise shape (w, h) with the image at ((w-iw)/2, (h-ih)/2) and zeros elsewhere |
| ImProc.PadBy | ocrolib/improc.py:53-59 | shape (w+2r, h+2r) with the image at (r, r) and zeros elsewhere; a negative r fails |
| ImProc.BinSizeOf | ocrolib/improc.py:64-65 | for r > 0 the bin size is the smallest multiple of r at least n, and exceeds n by less than r |
| ImProc.BinSizeNegative | ocrolib/improc.py:64-66 | for r < 0 the bin size is below n, so `pad_to` refuses it |
| ImProc.PadBin | ocrolib/improc.py:61-66 | pads to the bin sizes, ZeroDivisionError for r = 0, the `wd>=0` assertion for r < 0 |
| ImProc.Square | ocrolib/improc.py:68-76 | side max(w, h), with the image at ((r-w)/2, (r-h)/2) and zeros elsewhere |
| ImProc.Bbox | ocrolib/improc.py:170-177 | the mask is `image != 0`, and the result is None or the corners of the mask's label-1 extent |
| ImProc.BboxTight | ocrolib/improc.py:173-177 | None exactly for an all-zero image; otherwise the box holds every nonzero pixel and each of its four sides touches one |
| Lang.BuildConfusions | ocropy/lang.py:20-24 | the two nested loops compute `TableOf` of the lists |
| Lang.EntriesOf | ocropy/lang.py:23-24 | the inner loop keys each member of e to e and keeps every other entry |
| Lang.TableKeys | ocropy/lang.py:20-24 | the keys are exactly the members of all lists, and every key is in its own value |
| Lang.TableValues | ocropy/lang.py:22-24 | with disjoint lists, every member is keyed to its own list (no later list overwrites it) |
| Lang.ConfusionsDisjoint | ocropy/lang.py:7-18 | the ten confusion classes share no character |
| Lang.OcrConfusions | ocropy/lang.py:7-24 | `ocr_confusions` has exactly the class members as keys and maps each to its class |

## Left out

- LatticeText.LoadSave: the round trip (and `LatticeText.SavedLinesRows`) is promised only for savable lattices. `setClass` also accepts classes that break it. An int 32 becomes " ", and "" is accepted. `saveLattice` writes such classes with `%s`, and on load `split()` either drops the class field, so `cls = f[4]` raises IndexError, or cuts "a b" down to "a". Every whitespace-holding class is one that `check_valid_class_label` rejects, since a class it accepts is a single whitespace-free field (`CommonHelpers.ValidLabelIsToken`). The empty class passes that check and still does not survive.
- The native beam search (`beam_search`), `OcroFST` storage, `iulib`/`ocropus` wrappers, and `fstutils`. The decoder path and the FST are inputs or the small `Fst.OcroFst` class. In `compute_alignment`, `output_t` (from `fstutils`) is not produced.
- `common.renumber_labels_by_boxes` before `setSegmentation`: the segmentation is taken as already renumbered (`Labelled`, consecutive labels 1 .. N). `setCSegmentation` requires `Labelled` too, since its docstring asks for objects labelled consecutively.
- `common.label` of `propagate_labels*`: the region labelling is an input array. morph.py imports only numpy, pylab and scipy.ndimage, so `common` is not bound in that file as written; the model treats the call as the file's own `label` and takes its result as given.
- `sl.aspect` is a given function. `sl.dim0`/`dim1` are the box's row and column extents.
- The `bboxes` of ocrolib's `compute_alignment` are not produced. They index `seg_boxes` by label although that list starts at label 1, and they go through the column-mixing `rect_union` (see Findings).
- Floating point. Costs are fixed point with four decimals, and `float()` accepts only that form: no exponents, inf, nan or more than four fraction digits. `median`, `mean` and aspect tests use reals. `1.0/a` for a zero aspect is ZeroDivisionError. The float-valued `rmap` of ocropy's `compute_alignment` holds integers here.
- Integer widths. Labels, packed ids and pixels are unbounded integers. The int32 wrap of `labels1*100000+labels2` in `correspondences`, of `(preferred<<16)|segmentation`, and of the `'i'` arrays is not modelled. `>>16` and `&0xffff` are modelled exactly on non-negative values.
- `unichr` on narrow Python builds (surrogate pairs) and Python 2 `str` versus `unicode` encodings. A text is a sequence of code points.
- `allsplitext`/`gtext` regular expressions: `$` matching before a final newline, and `.` not matching a newline, are not modelled. Names are taken without newlines.
- The chist dictionary's iteration order. The result is sorted, so only ties of equal (count, value) could depend on it, and there are none.
- `Lattice.states` is a strictly increasing sequence rather than a set. `latticeGraph` and `showLattice` (pydot, image files, `os.system`) are left out.
- Reading files and streams. `readLattice`, `loadLattice` and `saveLattice` work on the text or the lines, not on file objects.
- An `AttributeError` from calling `isAccept`/`startState` before `readLattice` is not modelled: the fields exist from construction.
- Sorting.Median: the contract states only that the median lies between two of the values. The middle-element definition is its body, and no lemma relates it to the sorted order.
- Text.Split: the contract states only that fields are non-empty and hold no whitespace. Maximality of the runs is what `SplitToken` and `SplitJoin` state, for the lines the format writes.
- `OLD_rseg_map` (ocrolib/common.py:494-515) is the same code as ocropy's `rseg_map`, so `SegMaps.RsegMap` models both.
- Morph.PyArgSortOf: only integer keys and the default `cmp`/`key` are modelled.
- Morph.RenumberByXcenter: numpy `argsort` is not stable, so tied x-centres may come in any order. The model ranks ties by label, which is one of the orders numpy may produce. The x-centre is kept doubled (c0+c1) so that it stays an integer.
- ImProc.PadTo, ImProc.PadBy, ImProc.PadBin, ImProc.Square: integer images only. The float dtype that `zeros` gives `pad_*` is not modelled, and neither is `square`'s dtype.
- ImProc.Bbox: the `len(image.shape)==2` assertion is implied by the `array2` type.
- DocProc.SegBoxes: float pixels of the uint32 cast are not modelled; integer pixels wrap modulo 2**32.
- Morph.CheckBinaryOf: images are flattened to a sequence, as are the arrays of `correspondences`, `propagate_labels*` and `renumber_labels_ordered`. numpy's `amin` of an empty array raises ValueError, and the model keeps that.
- Morph.RenumberLabelsOrdered: the docstring says labels become 1 .. N, but the code gives ranks 0 .. k-1, so the smallest value becomes 0 even when 0 does not occur. The model follows the code.
- The other functions of morph.py, improc.py and docproc.py: filters, `spread_labels`, `select_regions`, `all_neighbors`, `stdsize`, `seg_geometry` and the like. They rest on scipy image operators or floating point.
- The verbose and debug branches (`if 0:`, `if verbose:`) and their `print`s.
- Grouper methods outside the lattice: `getMask`, the `extract*` methods, `bboxMath`, `boundingBox`, and the `unimplemented` stubs. They cut images with `sl`.
- loadLattice's final `raise Error(...)`. `Error` is not in the file's visible imports, so this is modelled only as "raises" (`BadFormat`).
- The ligature variant of ocrolib's merge loop: its append branch is unreachable, so [65, 0, 66, 0] gives two tokens (`TwoRunsExample`), and `RunCodes` states what the code does.
- CommonHelpers.Chist: integer values only. `chist` counts any hashable values and sorts them by their own order; the model takes `seq<int>` with the integer order.

## Findings

| source | as written | input that shows it | evidently intended | confidence | as-written member | corrected member |
|---|---|---|---|---|---|---|
| ocrolib/grouper.py:264-272 | the space branch of the last code point is taken when `yes<1000`, and its arc into the space state carries `cost` unchecked | a one-code-point class of cost 1000.0 with yes = 0 | no arc of 1000.0 or more is added | not executed | LatticeBuild.AsWrittenArcAtCeiling | LatticeBuild.GuardedPrunesIt |
| ocrolib/common.py:200-202 | the third pattern `\.([^./]+)\.(png\|costs\|fst\|txt)$` also matches a plain rseg/cseg name, reading "rseg" or "cseg" as its group 1 | `gtext("a.rseg.png")` gives "rseg" | "" (no ground-truth suffix) | not executed | CommonHelpers.GtextAsWrittenReadsRseg | CommonHelpers.GtextOfFvariant |
| ocrolib/common.py:213-214 | with gt=None the suffix from `gtext` is used without its leading '.' | `fvariant("a.gt.txt", "png")` gives "agt.png" | "a.gt.png" | not executed | CommonHelpers.FvariantAsWrittenDropsDot | CommonHelpers.FvariantKeepsSuffix |
| ocrolib/common.py:558 | `amax(r[:,0])` and `amax(r[:1])` take rows and columns from the wrong places | `rect_union([(0,2,0,3)])` gives (0,0,2,3) | the per-coordinate min/max, which contains every rectangle | not executed | CommonHelpers.RectUnionAsWrittenMixesColumns | CommonHelpers.RectUnionHolds |
