# Seven vendored fragments, modelled and proved in Dafny

The vendor tree bundles unrelated libraries. This project models the seven
fragments of it that are sequential and self-contained, one Dafny module per
source file (`wrappers.dfy` holds the shared `Option` and `Result`):

- `eqchecker.dfy` (module `PrintTest`): the `eqchecker` of buildtools'
  printer tests. It walks two parse trees in lock-step and reports the first
  structural difference as `file:line: message`. Go reflection is replaced by
  a closed `Value` datatype (zero Value, bool, int, string, slice, struct with
  named fields, pointer, interface, anything else). The checker is a class
  whose `pos` cursor each recursive method updates in place. Every method is
  proved equal to a recursive specification function (`CheckValue` and its
  layers), and the properties are lemmas about those functions.
- `print_tables.dfy` (module `PrintTables`): how `testIdempotence` and
  `TestPrintGolden` set and reset the global toggles of the `tables`
  package. The class `Tables` holds the three flags and the list of
  `testPrint` calls made so far with the flags each one saw.
- `cleanup.dfy` (module `Cleanup`): OLM's removal of cross-namespace owner
  references to ClusterServiceVersions, run at start-up. It covers the drop
  rule, the `mutated` flag, the in-place update of an object behind a pointer,
  the UID-to-namespace map, and which objects an update is issued for.
- `rkt_app.dfy` (module `RktApp`): rkt's inference of an app's state from a
  pod, the resolution of mounts against app and pod volumes, and the app
  filter of `appsForPod`. The pod's file tests, times and exit codes are
  inputs.
- `build_graph.dfy` (module `BuildGraph`): OpenShift's choice of the relevant
  builds of a build config: label ownership, newest-first sorting (an
  in-place insertion sort by `Less` and `Swap`), classification into last
  successful, last unsuccessful and active, and the latest build.
  Timestamps are integers.
- `generic_webhook.dfy` (module `GenericWebhook`): the decision chain of the
  generic build webhook. It returns the revision, env vars, whether to
  proceed, and the error.
- `overrides.dfy` (module `Overrides`): the lookup of an operator's owner
  Subscription and the overrides taken from it.
- `base36.dfy` (module `Base36`): the base36 codec that the test vectors fix.
  The codec is upper-case `0-9A-Z`, `Encode(0)` is the empty string, and
  decoding is case-insensitive. It is modelled as recursive functions on
  `nat`, with every tabulated vector proved.

Three behaviours of the code are worth stating on their own:
- `TestPrintGolden` resets `FormatBzlFiles` only after both of its loops.
  `testIdempotence` resets only the two label flags after each file.
- When the second slice is the longer one, the checker reports
  "unexpected T".
- A Complete build older than the newest Complete one is in none of the
  three results of `RelevantBuilds`, nor is an older Failed, Cancelled or
  Error build. `BuildGraph.ClassifyAccounts` states the exact account, with
  these superseded builds as the fourth part.

## Model

| member | source | states |
|---|---|---|
| PrintTest.Inner | vendor/github.com/bazelbuild/buildtools@v0.0.0-20180226164855-80c7f0d45d7e/build/print_test.go:232-245 | the result has nothing left to unwrap (no *ParenExpr, no non-nil interface) and is no larger than the input |
| PrintTest.Unwrap | vendor/github.com/bazelbuild/buildtools@v0.0.0-20180226164855-80c7f0d45d7e/build/print_test.go:232-245 | the unwrapping loop of inner returns exactly Inner(v) |
| PrintTest.FieldByName | vendor/github.com/bazelbuild/buildtools@v0.0.0-20180226164855-80c7f0d45d7e/build/print_test.go:235 | a valid result is the value of a field of that name |
| PrintTest.ParenX | vendor/github.com/bazelbuild/buildtools@v0.0.0-20180226164855-80c7f0d45d7e/build/print_test.go:235 | X of a *ParenExpr is strictly smaller than the pointer, or the zero Value for a nil pointer |
| PrintTest.CheckValue | vendor/github.com/bazelbuild/buildtools@v0.0.0-20180226164855-80c7f0d45d7e/build/print_test.go:227-325 | every error names the checker's file and the line of the position the checker holds when the error is made; that a difference is found and that it is the first one are stated by PrintTest.CheckIffSameNormalForm, PrintTest.ElemsFirstDifference and PrintTest.FieldsFirstDifference |
| PrintTest.CheckInner | vendor/github.com/bazelbuild/buildtools@v0.0.0-20180226164855-80c7f0d45d7e/build/print_test.go:250-265 | as CheckValue, for the kind, validity and type checks after inner and the Span update |
| PrintTest.CheckSwitch | vendor/github.com/bazelbuild/buildtools@v0.0.0-20180226164855-80c7f0d45d7e/build/print_test.go:267-323 | as CheckValue for the switch on the common kind, and a value of any kind other than bool, int, string, slice, struct, pointer or interface gives "unexpected type T" at the current line |
| PrintTest.CheckElems | vendor/github.com/bazelbuild/buildtools@v0.0.0-20180226164855-80c7f0d45d7e/build/print_test.go:278-291 | as CheckValue for the index loop over two slices, and slices pass only when they have one length |
| PrintTest.CheckFields | vendor/github.com/bazelbuild/buildtools@v0.0.0-20180226164855-80c7f0d45d7e/build/print_test.go:293-311 | as CheckValue for the loop over a struct's fields |
| PrintTest.EqChecker.constructor | vendor/github.com/bazelbuild/buildtools@v0.0.0-20180226164855-80c7f0d45d7e/build/print_test.go:200-203 | a checker holds its file name and the zero position |
| PrintTest.EqChecker.Errorf | vendor/github.com/bazelbuild/buildtools@v0.0.0-20180226164855-80c7f0d45d7e/build/print_test.go:207-210 | the error carries the checker's file, the line of its current position and the message |
| PrintTest.EqChecker.Check | vendor/github.com/bazelbuild/buildtools@v0.0.0-20180226164855-80c7f0d45d7e/build/print_test.go:214-216 | the error returned and the position left behind are those of CheckValue from the old position |
| PrintTest.EqChecker.CheckValueOf | vendor/github.com/bazelbuild/buildtools@v0.0.0-20180226164855-80c7f0d45d7e/build/print_test.go:227-325 | the recursive method that updates pos computes exactly CheckValue, error and final position |
| PrintTest.EqChecker.CheckInnerOf | vendor/github.com/bazelbuild/buildtools@v0.0.0-20180226164855-80c7f0d45d7e/build/print_test.go:250-265 | computes exactly CheckInner, including the update of pos to the Span start of an Expr |
| PrintTest.EqChecker.CheckSwitchOf | vendor/github.com/bazelbuild/buildtools@v0.0.0-20180226164855-80c7f0d45d7e/build/print_test.go:267-323 | computes exactly CheckSwitch |
| PrintTest.EqChecker.CheckElemsOf | vendor/github.com/bazelbuild/buildtools@v0.0.0-20180226164855-80c7f0d45d7e/build/print_test.go:278-291 | the index loop over the elements computes exactly CheckElems |
| PrintTest.EqChecker.CheckFieldsOf | vendor/github.com/bazelbuild/buildtools@v0.0.0-20180226164855-80c7f0d45d7e/build/print_test.go:293-311 | the index loop over the fields computes exactly CheckFields |
| PrintTest.NatText | vendor/github.com/bazelbuild/buildtools@v0.0.0-20180226164855-80c7f0d45d7e/build/print_test.go:208 | %d of a line number is a non-empty run of decimal digits with no leading zero, and the digits denote the number |
| PrintTest.IntText | vendor/github.com/bazelbuild/buildtools@v0.0.0-20180226164855-80c7f0d45d7e/build/print_test.go:208 | %d of a negative line is a minus sign before the digits of its magnitude, of any other line its digits |
| PrintTest.ErrorText | vendor/github.com/bazelbuild/buildtools@v0.0.0-20180226164855-80c7f0d45d7e/build/print_test.go:208-209 | the text is the file name, a colon, the %d text of the line, ": " and the message, each at its place |
| PrintTest.InnermostFixed | vendor/github.com/bazelbuild/buildtools@v0.0.0-20180226164855-80c7f0d45d7e/build/print_test.go:232-245 | inner leaves a value that has nothing to unwrap unchanged |
| PrintTest.CheckSeesInnermost | vendor/github.com/bazelbuild/buildtools@v0.0.0-20180226164855-80c7f0d45d7e/build/print_test.go:247-248 | checking two values is checking their innermost values: unwrapping is repeated to the end |
| PrintTest.ParenComparedAsX | vendor/github.com/bazelbuild/buildtools@v0.0.0-20180226164855-80c7f0d45d7e/build/print_test.go:234-237 | a parenthesised expression (X), on either side, is compared as X |
| PrintTest.InterfaceComparedAsContent | vendor/github.com/bazelbuild/buildtools@v0.0.0-20180226164855-80c7f0d45d7e/build/print_test.go:238-241 | a non-nil interface, on either side, is compared as its concrete value |
| PrintTest.KindsCompared | vendor/github.com/bazelbuild/buildtools@v0.0.0-20180226164855-80c7f0d45d7e/build/print_test.go:250-257 | different kinds after inner give "A became B" at the current line; two zero Values are equal with no error and the position unchanged |
| PrintTest.TypesCompared | vendor/github.com/bazelbuild/buildtools@v0.0.0-20180226164855-80c7f0d45d7e/build/print_test.go:259-261 | one kind but different types after inner give "T became U" |
| PrintTest.ScalarsCompared | vendor/github.com/bazelbuild/buildtools@v0.0.0-20180226164855-80c7f0d45d7e/build/print_test.go:271-276 | bool, int and string scalars of one type pass exactly when equal, and a difference is "old became new" |
| PrintTest.PointerNilness | vendor/github.com/bazelbuild/buildtools@v0.0.0-20180226164855-80c7f0d45d7e/build/print_test.go:313-322 | when exactly one pointer is nil the error is "unexpected T" (first nil) or "missing T" (second nil); when both are set the targets are compared |
| PrintTest.SliceLengthsMustAgree | vendor/github.com/bazelbuild/buildtools@v0.0.0-20180226164855-80c7f0d45d7e/build/print_test.go:278-291 | slices of different lengths never compare equal |
| PrintTest.SliceLengthError | vendor/github.com/bazelbuild/buildtools@v0.0.0-20180226164855-80c7f0d45d7e/build/print_test.go:281-287 | with equal shared elements, a longer second slice gives "unexpected T" and a longer first slice "missing T" of the first extra element; equal lengths pass |
| PrintTest.IgnoredFieldNotCompared | vendor/github.com/bazelbuild/buildtools@v0.0.0-20180226164855-80c7f0d45d7e/build/print_test.go:299-310 | changing a Position, Comments, MultiLine or LineBreak field on either side does not change the outcome |
| PrintTest.StringTokenNotCompared | vendor/github.com/bazelbuild/buildtools@v0.0.0-20180226164855-80c7f0d45d7e/build/print_test.go:309 | the Token field of a StringExpr is never compared |
| PrintTest.UnsupportedKindReported | vendor/github.com/bazelbuild/buildtools@v0.0.0-20180226164855-80c7f0d45d7e/build/print_test.go:267-268 | once the kind and type checks pass, a value of an unsupported kind gives "unexpected type T" at the current line, with the position unchanged |
| PrintTest.ElemsFirstDifference | vendor/github.com/bazelbuild/buildtools@v0.0.0-20180226164855-80c7f0d45d7e/build/print_test.go:278-291 | when the first k pairs of elements compare equal, each from the position the previous one left, and the k-th does not, the slices fail with exactly the k-th pair's outcome |
| PrintTest.ElemsPassIff | vendor/github.com/bazelbuild/buildtools@v0.0.0-20180226164855-80c7f0d45d7e/build/print_test.go:278-291 | two slices pass if and only if they have one length and every pair of elements compares equal from its position |
| PrintTest.FieldsFirstDifference | vendor/github.com/bazelbuild/buildtools@v0.0.0-20180226164855-80c7f0d45d7e/build/print_test.go:293-311 | when every field before the k-th is ignored or compares equal and the k-th is compared and does not, the structs fail with exactly the k-th field's outcome |
| PrintTest.FieldsPassIff | vendor/github.com/bazelbuild/buildtools@v0.0.0-20180226164855-80c7f0d45d7e/build/print_test.go:293-311 | two structs pass if and only if every field is ignored or compares equal from its position |
| PrintTest.SameNormalFormPasses | vendor/github.com/bazelbuild/buildtools@v0.0.0-20180226164855-80c7f0d45d7e/build/print_test.go:227-325 | two trees that agree once parentheses, interfaces, spans and cosmetic fields are erased compare equal, from any starting position |
| PrintTest.CheckReflexive | vendor/github.com/bazelbuild/buildtools@v0.0.0-20180226164855-80c7f0d45d7e/build/print_test.go:227-325 | a tree compares equal to itself unless it holds a value of an unsupported kind |
| PrintTest.PassMeansSameNormalForm | vendor/github.com/bazelbuild/buildtools@v0.0.0-20180226164855-80c7f0d45d7e/build/print_test.go:227-325 | for trees whose type names fix the shape of their slices, structs and pointers, a check without error means one normal form with nothing of an unsupported kind in it |
| PrintTest.PassMeansSameNormalFormInner | vendor/github.com/bazelbuild/buildtools@v0.0.0-20180226164855-80c7f0d45d7e/build/print_test.go:247-323 | the same after unwrapping, for the kind, type and switch layers |
| PrintTest.PassMeansSameNormalFormElems | vendor/github.com/bazelbuild/buildtools@v0.0.0-20180226164855-80c7f0d45d7e/build/print_test.go:278-291 | the same for two slices: equal lengths and pairwise equal normal forms |
| PrintTest.PassMeansSameNormalFormFields | vendor/github.com/bazelbuild/buildtools@v0.0.0-20180226164855-80c7f0d45d7e/build/print_test.go:293-311 | the same for two structs of one type: equal normal fields |
| PrintTest.CheckIffSameNormalForm | vendor/github.com/bazelbuild/buildtools@v0.0.0-20180226164855-80c7f0d45d7e/build/print_test.go:213-215 | for such trees, checkValue finds no difference if and only if the normal forms are equal and hold nothing of an unsupported kind |
| PrintTest.NormalizeSeesInnermost | vendor/github.com/bazelbuild/buildtools@v0.0.0-20180226164855-80c7f0d45d7e/build/print_test.go:232-245 | unwrapping does not change the normal form |
| PrintTest.PositionVisited | vendor/github.com/bazelbuild/buildtools@v0.0.0-20180226164855-80c7f0d45d7e/build/print_test.go:263-265 | the position after a check is the starting one or the Span start of an Expr of the first tree |
| PrintTest.ErrorLocation | vendor/github.com/bazelbuild/buildtools@v0.0.0-20180226164855-80c7f0d45d7e/build/print_test.go:207-210 | every error is located at the file and at the line of a visited Expr of the first tree, or the starting line |
| PrintTables.ContainsIffOccurs | vendor/github.com/bazelbuild/buildtools@v0.0.0-20180226164855-80c7f0d45d7e/build/print_test.go:39 | strings.Contains holds exactly when the substring occurs at some index |
| PrintTables.GoldenPrefix | vendor/github.com/bazelbuild/buildtools@v0.0.0-20180226164855-80c7f0d45d7e/build/print_test.go:63 | for a name ending in .golden, the prefix plus .golden is the name |
| PrintTables.IdempotenceRunsAt | vendor/github.com/bazelbuild/buildtools@v0.0.0-20180226164855-80c7f0d45d7e/build/print_test.go:56-58 | the k-th testPrint of the first loop sees the flags its file name sets, and only the first one sees the flags left from before |
| PrintTables.WithoutBzlCounterpartMembers | vendor/github.com/bazelbuild/buildtools@v0.0.0-20180226164855-80c7f0d45d7e/build/print_test.go:62-67 | a golden file is tested again exactly when no .formatbzl.golden counterpart exists |
| PrintTables.SecondPassRunsFiltered | vendor/github.com/bazelbuild/buildtools@v0.0.0-20180226164855-80c7f0d45d7e/build/print_test.go:62-69 | the second loop is the first loop's behaviour over the files without a counterpart |
| PrintTables.GoldenRunsFromReset | vendor/github.com/bazelbuild/buildtools@v0.0.0-20180226164855-80c7f0d45d7e/build/print_test.go:53-71 | from reset flags, each testPrint of the first pass has FormatBzlFiles off, and each of the second pass has it on and concerns a file without counterpart |
| PrintTables.Tables.TestPrint | vendor/github.com/bazelbuild/buildtools@v0.0.0-20180226164855-80c7f0d45d7e/build/print_test.go:46 | testPrint is recorded with the three flags as they are at the call; no flag changes |
| PrintTables.Tables.TestIdempotence | vendor/github.com/bazelbuild/buildtools@v0.0.0-20180226164855-80c7f0d45d7e/build/print_test.go:38-49 | testPrint sees StripLabelLeadingSlashes set by .stripslashes. and ShortenAbsoluteLabelsToRelative by /050., and both are false afterwards whatever the file name |
| PrintTables.Tables.TestAll | vendor/github.com/bazelbuild/buildtools@v0.0.0-20180226164855-80c7f0d45d7e/build/print_test.go:56-58 | the first loop appends IdempotenceRuns and leaves both label flags false |
| PrintTables.Tables.TestUnlessBzlCounterpart | vendor/github.com/bazelbuild/buildtools@v0.0.0-20180226164855-80c7f0d45d7e/build/print_test.go:63-68 | one turn of the second loop: skipped when the counterpart exists, one testIdempotence otherwise |
| PrintTables.Tables.TestWithoutBzlCounterpart | vendor/github.com/bazelbuild/buildtools@v0.0.0-20180226164855-80c7f0d45d7e/build/print_test.go:62-69 | the second loop appends SecondPassRuns and keeps the label flags false |
| PrintTables.Tables.TestPrintGolden | vendor/github.com/bazelbuild/buildtools@v0.0.0-20180226164855-80c7f0d45d7e/build/print_test.go:53-71 | no golden file is fatal and changes nothing; otherwise all three flags end false and the runs are the two passes, the second with FormatBzlFiles on |
| Cleanup.UidNamespaces | vendor/github.com/operator-framework/operator-lifecycle-manager@v0.0.0-20191115003340-16619cd27fa5/cmd/olm/cleanup.go:143-146 | the map's keys are exactly the UIDs of the listed CSVs |
| Cleanup.UidNamespacesLastWins | vendor/github.com/operator-framework/operator-lifecycle-manager@v0.0.0-20191115003340-16619cd27fa5/cmd/olm/cleanup.go:143-146 | each listed CSV's UID maps to its namespace unless a later CSV has the same UID |
| Cleanup.BuildUidNamespaces | vendor/github.com/operator-framework/operator-lifecycle-manager@v0.0.0-20191115003340-16619cd27fa5/cmd/olm/cleanup.go:143-146 | the loop builds UidNamespaces |
| Cleanup.CleanRefs | vendor/github.com/operator-framework/operator-lifecycle-manager@v0.0.0-20191115003340-16619cd27fa5/cmd/olm/cleanup.go:221-233 | the kept references are exactly the references that the drop rule keeps, and there are no more of them than before |
| Cleanup.CleanRefsKeepsOrder | vendor/github.com/operator-framework/operator-lifecycle-manager@v0.0.0-20191115003340-16619cd27fa5/cmd/olm/cleanup.go:221-233 | the references that remain keep their original relative order |
| Cleanup.CleanRefsShorterIffBadRef | vendor/github.com/operator-framework/operator-lifecycle-manager@v0.0.0-20191115003340-16619cd27fa5/cmd/olm/cleanup.go:223-229 | a reference is dropped exactly when one breaks the rule; otherwise the references are unchanged |
| Cleanup.CleanRefsCounts | vendor/github.com/operator-framework/operator-lifecycle-manager@v0.0.0-20191115003340-16619cd27fa5/cmd/olm/cleanup.go:221-233 | a kept reference remains as many times as it occurs, a dropped one not at all |
| Cleanup.OtherKindKept | vendor/github.com/operator-framework/operator-lifecycle-manager@v0.0.0-20191115003340-16619cd27fa5/cmd/olm/cleanup.go:224-232 | a reference of another kind is always kept |
| Cleanup.BadRefDropped | vendor/github.com/operator-framework/operator-lifecycle-manager@v0.0.0-20191115003340-16619cd27fa5/cmd/olm/cleanup.go:225-229 | a reference of the kind is dropped when its UID is unknown or its owner's namespace is neither NamespaceAll nor the object's |
| Cleanup.FilterOwnerReferences | vendor/github.com/operator-framework/operator-lifecycle-manager@v0.0.0-20191115003340-16619cd27fa5/cmd/olm/cleanup.go:221-233 | the loop yields CleanRefs, and mutated holds exactly when a reference was dropped |
| Cleanup.RemoveBadRefs | vendor/github.com/operator-framework/operator-lifecycle-manager@v0.0.0-20191115003340-16619cd27fa5/cmd/olm/cleanup.go:219-241 | the closure keeps the namespace, reports mutated iff a reference was dropped, replaces the references by CleanRefs and leaves them untouched when not mutated |
| Cleanup.CollectObjects | vendor/github.com/operator-framework/operator-lifecycle-manager@v0.0.0-20191115003340-16619cd27fa5/cmd/olm/cleanup.go:150-172 | one freshly allocated, distinct object per listed item, in order, holding that item |
| Cleanup.CollectRangeAliased | vendor/github.com/operator-framework/operator-lifecycle-manager@v0.0.0-20191115003340-16619cd27fa5/cmd/olm/cleanup.go:151-153 | taking &obj of the range variable appends the same pointer every time, which ends up holding the last item |
| Cleanup.AliasedCollectionMissesBadRef | vendor/github.com/operator-framework/operator-lifecycle-manager@v0.0.0-20191115003340-16619cd27fa5/cmd/olm/cleanup.go:150-177 | an input where an item has a bad reference but the aliased collection reports no mutation for any entry |
| Cleanup.ItemsToUpdate | vendor/github.com/operator-framework/operator-lifecycle-manager@v0.0.0-20191115003340-16619cd27fa5/cmd/olm/cleanup.go:174-177 | the positions, in increasing order, are exactly those of the items that have a reference to drop |
| Cleanup.ScrubObjects | vendor/github.com/operator-framework/operator-lifecycle-manager@v0.0.0-20191115003340-16619cd27fa5/cmd/olm/cleanup.go:174-213 | every object ends scrubbed, and an update is issued exactly for the objects whose references changed, in order; the others are skipped |
| Cleanup.CleanupOwnerReferences | vendor/github.com/operator-framework/operator-lifecycle-manager@v0.0.0-20191115003340-16619cd27fa5/cmd/olm/cleanup.go:136-217 | a CSV list failure is returned with nothing scrubbed; otherwise every object of the five lists is scrubbed against the CSVs' UID map and exactly the changed ones are updated |
| RktApp.AppStateFromPod | vendor/github.com/coreos/rkt@v1.30.0/lib/app.go:239-252 | Prepared gives Created, Running gives Running, the five deleting, exited and garbage states give Exited, and every other state gives Unknown |
| RktApp.Int32 | vendor/github.com/coreos/rkt@v1.30.0/lib/app.go:193 | int32(code) is the 32-bit two's-complement value congruent to code |
| RktApp.Int32Fits | vendor/github.com/coreos/rkt@v1.30.0/lib/app.go:193 | int32 leaves a value that fits unchanged |
| RktApp.MutableProgression | vendor/github.com/coreos/rkt@v1.30.0/lib/app.go:139-184 | the state goes Unknown, Created, Running, Exited, one step per present file, stopping at the first missing one; a stat error other than not-existing is returned and names that file |
| RktApp.MutableTimestamps | vendor/github.com/coreos/rkt@v1.30.0/lib/app.go:156-184 | each step records the modification time of the file it found |
| RktApp.ExitCodeDefaultsToOne | vendor/github.com/coreos/rkt@v1.30.0/lib/app.go:186-194 | with all three files present the app is Exited, and its exit code is 1 when it cannot be read, the int32 of the code otherwise |
| RktApp.AfterRunForcesExited | vendor/github.com/coreos/rkt@v1.30.0/lib/app.go:121-136 | a pod after run leaves the app Exited whatever path was taken, error returns included |
| RktApp.ImmutableExitCodeMeansExited | vendor/github.com/coreos/rkt@v1.30.0/lib/app.go:210-216 | an available exit code makes the app Exited with that code whatever the pod state; without one the state is the pod's |
| RktApp.ImmutableErrors | vendor/github.com/coreos/rkt@v1.30.0/lib/app.go:203-230 | the only errors are the creation, start and GC-mark time queries, in that order |
| RktApp.VolumesByName | vendor/github.com/coreos/rkt@v1.30.0/lib/app.go:81-85 | the map's keys are exactly the names of the pod volumes |
| RktApp.VolumesByNameLastWins | vendor/github.com/coreos/rkt@v1.30.0/lib/app.go:83-85 | a volume name maps to the last volume of that name |
| RktApp.BuildVolumesByName | vendor/github.com/coreos/rkt@v1.30.0/lib/app.go:81-85 | the loop builds VolumesByName |
| RktApp.ReadOnlyOf | vendor/github.com/coreos/rkt@v1.30.0/lib/app.go:93-100 | a nil ReadOnly means false |
| RktApp.ResolveMount | vendor/github.com/coreos/rkt@v1.30.0/lib/app.go:87-107 | name and container path come from the mount; host path and read-only come from the AppVolume when there is one, else from the pod volume of that name, else they are empty and false |
| RktApp.ResolveMounts | vendor/github.com/coreos/rkt@v1.30.0/lib/app.go:102-107 | one mount per runtime-app mount |
| RktApp.ResolveMountsAt | vendor/github.com/coreos/rkt@v1.30.0/lib/app.go:102-107 | the k-th mount is the resolution of the k-th runtime-app mount, in order |
| RktApp.PodVolumeOfMount | vendor/github.com/coreos/rkt@v1.30.0/lib/app.go:96-101 | without an AppVolume the host path and read-only flag are those of the last pod volume of the mount's name |
| RktApp.App.constructor | vendor/github.com/coreos/rkt@v1.30.0/lib/app.go:74-79 | the App takes its name, image ID, annotations and labels from the runtime app, with no mounts and no state yet |
| RktApp.App.AddMounts | vendor/github.com/coreos/rkt@v1.30.0/lib/app.go:87-108 | appends ResolveMounts to the mounts and changes nothing else |
| RktApp.App.MutableStepsOf | vendor/github.com/coreos/rkt@v1.30.0/lib/app.go:139-197 | the in-place steps compute MutableSteps over the app's fields |
| RktApp.App.AppStateInMutablePod | vendor/github.com/coreos/rkt@v1.30.0/lib/app.go:118-197 | the state fields and error after the call, deferred override included, are MutableStatus of the old fields |
| RktApp.App.AppStateInImmutablePod | vendor/github.com/coreos/rkt@v1.30.0/lib/app.go:200-237 | the state fields and error after the call are ImmutableStatus of the old fields |
| RktApp.App.ApplyState | vendor/github.com/coreos/rkt@v1.30.0/lib/app.go:111 | the state function is applied to the app's fields and nothing else changes |
| RktApp.NewApp | vendor/github.com/coreos/rkt@v1.30.0/lib/app.go:73-116 | a state error gives nil and the wrapped error; otherwise a new App built from the runtime app, the manifest's volumes and the state |
| RktApp.Selected | vendor/github.com/coreos/rkt@v1.30.0/lib/app.go:55-67 | at most one App per runtime app |
| RktApp.SelectedMembers | vendor/github.com/coreos/rkt@v1.30.0/lib/app.go:55-67 | an app is returned exactly when its name passes the filter (empty keeps all) and its state can be inferred |
| RktApp.SelectedAll | vendor/github.com/coreos/rkt@v1.30.0/lib/app.go:55-67 | an empty name with states that can all be inferred keeps every app, in manifest order |
| RktApp.AppIfSelected | vendor/github.com/coreos/rkt@v1.30.0/lib/app.go:56-66 | one turn of the loop: an App exactly for a passing name and an inferable state, otherwise skipped |
| RktApp.AppsForPodWith | vendor/github.com/coreos/rkt@v1.30.0/lib/app.go:48-70 | a manifest error is returned; otherwise the distinct new Apps of the selected runtime apps, in order, and no error |
| RktApp.AppsForPod | vendor/github.com/coreos/rkt@v1.30.0/lib/app.go:38-46 | a pod load error or a manifest error is returned; otherwise the Apps as appsForPod builds them with the mutable-pod state |
| BuildGraph.BelongsToBuildConfig | vendor/github.com/openshift/origin@v0.0.0-20160503220234-8f127d736703/pkg/build/graph/helpers.go:54-65 | false for nil labels; otherwise true iff the current or deprecated build-config label is the config's name |
| BuildGraph.BelongsByLabel | vendor/github.com/openshift/origin@v0.0.0-20160503220234-8f127d736703/pkg/build/graph/helpers.go:58-63 | a label equal to the name makes the build belong; with neither label present a build belongs only to a config with an empty name |
| BuildGraph.LessIsStrictOrder | vendor/github.com/openshift/origin@v0.0.0-20160503220234-8f127d736703/pkg/build/graph/helpers.go:71-73 | Less is irreflexive and transitive, and newest-first order is exactly no later element being Less than an earlier one |
| BuildGraph.DefaultNamespace | vendor/github.com/openshift/origin@v0.0.0-20160503220234-8f127d736703/pkg/build/graph/helpers.go:75-80 | an empty value gives the default and a non-empty one itself |
| BuildGraph.DefaultIffEmpty | vendor/github.com/openshift/origin@v0.0.0-20160503220234-8f127d736703/pkg/build/graph/helpers.go:75-80 | when the value is not the default already, the default is returned exactly when the value is empty |
| BuildGraph.OwnedBuilds | vendor/github.com/openshift/origin@v0.0.0-20160503220234-8f127d736703/pkg/build/graph/helpers.go:23-28 | the builds kept are exactly the listed builds that belong to the config |
| BuildGraph.OwnedBuildsCounts | vendor/github.com/openshift/origin@v0.0.0-20160503220234-8f127d736703/pkg/build/graph/helpers.go:23-28 | each build of the config is kept as many times as its node is listed, any other build not at all |
| BuildGraph.CollectOwned | vendor/github.com/openshift/origin@v0.0.0-20160503220234-8f127d736703/pkg/build/graph/helpers.go:23-28 | the loop yields OwnedBuilds |
| BuildGraph.InsertNewest | vendor/github.com/openshift/origin@v0.0.0-20160503220234-8f127d736703/pkg/build/graph/helpers.go:34 | one insertion pass by Less and Swap extends the newest-first prefix by one and permutes the array |
| BuildGraph.SortNewestFirst | vendor/github.com/openshift/origin@v0.0.0-20160503220234-8f127d736703/pkg/build/graph/helpers.go:34 | the sorted array is newest first and a permutation of the input |
| BuildGraph.Classify | vendor/github.com/openshift/origin@v0.0.0-20160503220234-8f127d736703/pkg/build/graph/helpers.go:36-49 | no more active builds than builds |
| BuildGraph.ClassifyPicksFirst | vendor/github.com/openshift/origin@v0.0.0-20160503220234-8f127d736703/pkg/build/graph/helpers.go:36-49 | last-successful (last-unsuccessful) is set exactly when a Complete (Failed, Cancelled or Error) build occurs, and is the first one in list order |
| BuildGraph.ClassifyAccounts | vendor/github.com/openshift/origin@v0.0.0-20160503220234-8f127d736703/pkg/build/graph/helpers.go:36-49 | active builds, the two singled-out builds, and the older terminal builds they supersede together are the list, as a multiset |
| BuildGraph.SupersededAreTerminal | vendor/github.com/openshift/origin@v0.0.0-20160503220234-8f127d736703/pkg/build/graph/helpers.go:38-45 | only Complete, Failed, Cancelled and Error builds are left out of all three results |
| BuildGraph.ActiveCounts | vendor/github.com/openshift/origin@v0.0.0-20160503220234-8f127d736703/pkg/build/graph/helpers.go:46-47 | each build is active as many times as it occurs in the list when its phase is not terminal and never otherwise |
| BuildGraph.ActiveNewestFirst | vendor/github.com/openshift/origin@v0.0.0-20160503220234-8f127d736703/pkg/build/graph/helpers.go:36-49 | the active list keeps newest-first order |
| BuildGraph.FirstIsNewest | vendor/github.com/openshift/origin@v0.0.0-20160503220234-8f127d736703/pkg/build/graph/helpers.go:34-45 | in newest-first order the first build of an outcome has the largest timestamp of that outcome |
| BuildGraph.ClassifyBuilds | vendor/github.com/openshift/origin@v0.0.0-20160503220234-8f127d736703/pkg/build/graph/helpers.go:36-49 | the classification loop computes Classify |
| BuildGraph.RelevantOfSorted | vendor/github.com/openshift/origin@v0.0.0-20160503220234-8f127d736703/pkg/build/graph/helpers.go:34-49 | classifying any newest-first permutation of the owned builds singles out a first-listed and newest build per outcome |
| BuildGraph.RelevantBuilds | vendor/github.com/openshift/origin@v0.0.0-20160503220234-8f127d736703/pkg/build/graph/helpers.go:14-52 | no owned builds gives nil, nil and an empty list; otherwise each singled-out build is a newest owned build of its outcome, and the active list is newest first and holds exactly the owned non-terminal builds |
| BuildGraph.GetLatestBuild | vendor/github.com/openshift/origin@v0.0.0-20160503220234-8f127d736703/pkg/build/graph/helpers.go:92-108 | nil exactly for an empty list; otherwise a listed build with the greatest timestamp, the earliest listed one winning ties |
| GenericWebhook.VerifyRequest | vendor/github.com/openshift/origin@v0.0.0-20160503220234-8f127d736703/pkg/build/webhook/generic/generic.go:102-107 | no error exactly for POST; otherwise "Unsupported HTTP method" with the method |
| GenericWebhook.FirstMatchingRef | vendor/github.com/openshift/origin@v0.0.0-20160503220234-8f127d736703/pkg/build/webhook/generic/generic.go:80-87 | a ref is found exactly when some ref matches, and it is the first matching one |
| GenericWebhook.FromPayload | vendor/github.com/openshift/origin@v0.0.0-20160503220234-8f127d736703/pkg/build/webhook/generic/generic.go:71-98 | no error; env vars are the payload's when non-empty and allowed, none otherwise; a revision means proceed |
| GenericWebhook.Extract | vendor/github.com/openshift/origin@v0.0.0-20160503220234-8f127d736703/pkg/build/webhook/generic/generic.go:28-100 | an error never proceeds and never carries a revision; a revision always proceeds; env vars only come with a trigger that allows them |
| GenericWebhook.NoTriggerNotEnabled | vendor/github.com/openshift/origin@v0.0.0-20160503220234-8f127d736703/pkg/build/webhook/generic/generic.go:29-33 | without a generic trigger the result is ErrHookNotEnabled and no build, whatever the request |
| GenericWebhook.SecretCheckedBeforeRequest | vendor/github.com/openshift/origin@v0.0.0-20160503220234-8f127d736703/pkg/build/webhook/generic/generic.go:35-42 | a wrong secret gives ErrSecretMismatch whatever the method or body |
| GenericWebhook.OnlyPost | vendor/github.com/openshift/origin@v0.0.0-20160503220234-8f127d736703/pkg/build/webhook/generic/generic.go:39-42 | with the right secret, the method error occurs exactly for a method other than POST, and then no build |
| GenericWebhook.NoGitSourceProceeds | vendor/github.com/openshift/origin@v0.0.0-20160503220234-8f127d736703/pkg/build/webhook/generic/generic.go:44-48 | a config without a git source triggers with no revision |
| GenericWebhook.BadContentTypeRefused | vendor/github.com/openshift/origin@v0.0.0-20160503220234-8f127d736703/pkg/build/webhook/generic/generic.go:50-56 | an unparseable Content-Type does not proceed and reports what ParseMediaType returned and its error |
| GenericWebhook.NonJsonProceeds | vendor/github.com/openshift/origin@v0.0.0-20160503220234-8f127d736703/pkg/build/webhook/generic/generic.go:58-99 | a request without a body or not of type application/json triggers with no revision |
| GenericWebhook.BodyOutcomes | vendor/github.com/openshift/origin@v0.0.0-20160503220234-8f127d736703/pkg/build/webhook/generic/generic.go:59-70 | a read error does not proceed; an empty or unparsable JSON body triggers with no revision |
| GenericWebhook.PayloadDecides | vendor/github.com/openshift/origin@v0.0.0-20160503220234-8f127d736703/pkg/build/webhook/generic/generic.go:66-98 | a parsed payload decides as FromPayload |
| GenericWebhook.EnvOnlyWhenAllowed | vendor/github.com/openshift/origin@v0.0.0-20160503220234-8f127d736703/pkg/build/webhook/generic/generic.go:71-73 | payload env vars are returned exactly when there are some and AllowEnv is set |
| GenericWebhook.NoGitInfoProceeds | vendor/github.com/openshift/origin@v0.0.0-20160503220234-8f127d736703/pkg/build/webhook/generic/generic.go:74-77 | a payload without git information triggers with no revision |
| GenericWebhook.RefsListFirstMatch | vendor/github.com/openshift/origin@v0.0.0-20160503220234-8f127d736703/pkg/build/webhook/generic/generic.go:79-90 | with a refs list, the build proceeds exactly when some ref matches, with the first matching ref's revision; an empty list never proceeds |
| GenericWebhook.SingleRefMatch | vendor/github.com/openshift/origin@v0.0.0-20160503220234-8f127d736703/pkg/build/webhook/generic/generic.go:91-97 | without a refs list, the build proceeds exactly when the single ref matches, with the payload's revision |
| Overrides.FindOwner | vendor/github.com/operator-framework/operator-lifecycle-manager@v0.0.0-20191115003340-16619cd27fa5/pkg/controller/operators/olm/overrides/config.go:39-48 | the first subscription whose InstalledCSV is the owner's name; none exactly when no subscription has it |
| Overrides.GetConfigOverrides | vendor/github.com/operator-framework/operator-lifecycle-manager@v0.0.0-20191115003340-16619cd27fa5/pkg/controller/operators/olm/overrides/config.go:19-37 | a list failure gives the error and empty overrides; no owner gives empty overrides and no error; an owner gives its Spec.Config env, volumes and volume mounts |
| Overrides.ErrorIffListFailed | vendor/github.com/operator-framework/operator-lifecycle-manager@v0.0.0-20191115003340-16619cd27fa5/pkg/controller/operators/olm/overrides/config.go:21-24 | the error is set exactly when listing failed, and then all three override lists are empty |
| Overrides.OverridesComeFromOwner | vendor/github.com/operator-framework/operator-lifecycle-manager@v0.0.0-20191115003340-16619cd27fa5/pkg/controller/operators/olm/overrides/config.go:32-34 | non-empty env overrides are the env of a listed subscription that installed the owner |
| Base36.Digit | vendor/github.com/martinlindhe/base36@v1.0.0/base36_test.go:15-17 | digits are 0-9A-Z and only 0 is '0' |
| Base36.DigitValue | vendor/github.com/martinlindhe/base36@v1.0.0/base36_test.go:28 | exactly 0-9, A-Z and a-z have a value, below 36 |
| Base36.ToLower | vendor/github.com/martinlindhe/base36@v1.0.0/base36_test.go:28 | strings.ToLower keeps the length and lower-cases each letter |
| Base36.EncodeCanonical | vendor/github.com/martinlindhe/base36@v1.0.0/base36_test.go:11-17 | an encoding uses only 0-9A-Z with no leading zero, and is empty exactly for 0 |
| Base36.DecodeEncode | vendor/github.com/martinlindhe/base36@v1.0.0/base36_test.go:25-29 | Decode inverts Encode on every number |
| Base36.DigitRoundTrip | vendor/github.com/martinlindhe/base36@v1.0.0/base36_test.go:28 | each digit decodes to its value in either case |
| Base36.DecodeLowerEncode | vendor/github.com/martinlindhe/base36@v1.0.0/base36_test.go:28 | the lower-cased encoding decodes to the same number |
| Base36.EncodeDecode | vendor/github.com/martinlindhe/base36@v1.0.0/base36_test.go:25-29 | a canonical string is the encoding of its decoded value |
| Base36.AlphabetDigit | vendor/github.com/martinlindhe/base36@v1.0.0/base36_test.go:15-17 | each upper-case digit character is the digit of its value |
| Base36.EncodeVectorsBelow1000 | vendor/github.com/martinlindhe/base36@v1.0.0/base36_test.go:11-21 | Encode of 0, 50, 100, 999 is "", 1E, 2S, RR |
| Base36.EncodeVectorsBelow10000 | vendor/github.com/martinlindhe/base36@v1.0.0/base36_test.go:11-21 | Encode of 1000, 1111, 5959 is RS, UV, 4LJ |
| Base36.EncodeVector99999 | vendor/github.com/martinlindhe/base36@v1.0.0/base36_test.go:11-21 | Encode(99999) is 255R |
| Base36.EncodeVector123456789 | vendor/github.com/martinlindhe/base36@v1.0.0/base36_test.go:11-21 | Encode(123456789) is 21I3V9 |
| Base36.EncodeVectorBenchmarkValue | vendor/github.com/martinlindhe/base36@v1.0.0/base36_test.go:12-16 | Encode(5481594952936519619) is 15N9Z8L3AU4EB |
| Base36.EncodeVectorMaxInt64Div2048 | vendor/github.com/martinlindhe/base36@v1.0.0/base36_test.go:12-16 | Encode(MaxInt64 / 2048) is 18CE53UN18F |
| Base36.EncodeVectorMaxInt64Div512 | vendor/github.com/martinlindhe/base36@v1.0.0/base36_test.go:12-16 | Encode(MaxInt64 / 512) is 4XDKKFEK4XR |
| Base36.EncodeVectorMaxInt64 | vendor/github.com/martinlindhe/base36@v1.0.0/base36_test.go:13-17 | Encode(MaxInt64) is 1Y2P0IJ32E8E7 |
| Base36.EncodeVectorMaxUint64 | vendor/github.com/martinlindhe/base36@v1.0.0/base36_test.go:13-17 | Encode(MaxUint64) is 3W5E11264SGSF |

## Left out

- Parsing, printing, rewriting, `tdiff` and the body of `testPrint` are not part of this model. A `testPrint` call is recorded with the flags it sees. `TestPrintRewrite` and `testPrint`'s own file handling are left out with it.
- `findTests` globbing and changing directory: its list of golden files is an input. Its fatal error for an empty list is modelled; the other failures of `Getwd`, `Chdir` and `Glob` are not. Whether a `.formatbzl.golden` file exists is given as a set of existing names.
- Go reflection: replaced by the `Value` datatype. Only pointer values carry the span of an `Expr`; a non-pointer value implementing `Expr` is not modelled. A struct field missing in the second tree reads as the zero Value.
- PrintTest.ParenX: a nil `*ParenExpr` panics in the source. The model unwraps it to the zero Value instead.
- PrintTest.Visit: calling `Span()` on a nil pointer of an `Expr` type (a nil `*Ident`, say) dereferences the nil receiver and panics in the source. The model does not capture that panic: it moves the position to the span the pointer value carries, or leaves it unchanged when there is none.
- PrintTest.CheckIffSameNormalForm: the converse direction (no error means one normal form) is proved only for trees whose type names fix their shape (the `Typed` predicate), as Go's type system guarantees. Reflection guarantees this, but the `Value` datatype does not.
- PrintTest.EqChecker.Errorf: the error text is a structured message rendered by `ErrorText`; `%s` of a `reflect.Type` is the type's name as given.
- Kubernetes clients in `cleanupOwnerReferences`: the five lists are inputs, and only the CSV list can fail (the source ignores the other errors). The update calls, `retry.RetryOnConflict` and the per-type update switch are reduced to the positions of the objects an update is issued for. `waitForDelete` and the rest of `cleanup.go` are not part of this model.
- Cleanup.CleanupOwnerReferences: models the intended one pointer per listed item. The code as written is `Cleanup.CollectRangeAliased`; see Findings.
- rkt I/O: pod loading by UUID, `p.Close`, the pod manifest, `os.Stat` of the three app files, `Stage1RootfsPath`, the exit code and the creation, start and GC-mark times are all inputs. Printing to stderr is left out. `UnixNano` is taken as given, with no overflow modelled.
- RktApp.AppsForPodWith: the `appStateFunc` is a function value from the app's name, pod and state fields to the new fields and an error. `App.ApplyState` applies it to the app in place.
- The graph queries `SuccessorNodesByEdgeKind` and `PredecessorNodesByEdgeKind` are not part of this model; the successor list is an input sequence of nodes. `BuildConfigForTag` is thin glue over the predecessor query and is left out with it.
- BuildGraph.RelevantBuilds: requires every successor to be a build node, as the source's unchecked type assertion does, which otherwise panics. `GetLatestBuild` has the same requirement, but only for its first node.
- BuildGraph.SortNewestFirst: `sort.Sort` is not stable and its order among builds with equal timestamps is unspecified. The model sorts by insertion, and its contracts say nothing about ties beyond newest-first order and permutation.
- The label constants `openshift.io/build-config.name` and `buildconfig` come from OpenShift's build API package, which is not part of this model; their values are taken from that API.
- `hmac.Equal` is plain string equality here; its constant-time behaviour is left out. `mime.ParseMediaType`, `json.Unmarshal`, `webhook.FindTriggerPolicy` and `webhook.GitRefMatches` are not part of this model and are parameters. Reading the body is given as its outcome. glog is left out.
- GenericWebhook.Extract: Go's nil env var slice and an empty one are both the empty sequence.
- Base36: the implementation is not part of this model; the codec is the one the test vectors fix. `Decode` of a character outside `0-9A-Za-z` is not fixed by them and gives `None`. Go's uint64 overflow in `Encode`/`Decode` is not modelled: numbers are unbounded and the vectors stay within 64 bits. `EncodeBytesAsBytes` only appears in a benchmark and is left out.
- The `o.logger.Debugf` call that `GetConfigOverrides` makes when no owner Subscription is found is logging and is left out. That path returns empty overrides and no error, which `Overrides.GetConfigOverrides` states.

## Findings

| source | as written | input that shows it | evidently intended | confidence | as-written member | corrected member |
|---|---|---|---|---|---|---|
| vendor/github.com/operator-framework/operator-lifecycle-manager@v0.0.0-20191115003340-16619cd27fa5/cmd/olm/cleanup.go:150-172 | `objs = append(objs, &obj)` inside `for _, obj := range ...Items` appends the address of the single loop variable, so every entry of `objs` is one object holding the last item of the list | two role bindings in one list: the first is in namespace ns-a, with an owner reference to a known CSV UID whose CSV lives in ns-b; the second has no references. No entry is mutated and no update is issued, though the first binding has a bad reference | one pointer per listed item (`&list.Items[i]`), so each object is scrubbed and updated | high for the loop-variable semantics of the Go version the code was written for, not executed | Cleanup.AliasedCollectionMissesBadRef | Cleanup.CleanupOwnerReferences |
