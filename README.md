# JavaPatcher core in Dafny

JavaPatcher applies declarative patch documents to compiled Java classes.
A patch document is XML, or JSON converted to XML. It holds patch groups of
class elements. Each class element lists patch operations by tag name, with
attributes and an optional list of target methods. This project models the
engine that reads such documents and dispatches the operations, and the
operations' own bytecode and expression algorithms:

- **Dispatch and caching** (`Patcher.java`):
  - the operation descriptor built from a `@Patch` method (`Descriptors.MakeOperation`);
  - member selection in `PatchMethodDescriptor.run` (`Descriptors.Select`, `Descriptors.Run`);
  - `runPatches`, which threads the class through a class patch's operations (`Descriptors.RunPatches`);
  - building a `ClassPatchDescriptor` from a class element, including `$N.field` resolution (`ClassPatches.BuildClassPatch`);
  - the obfuscation pass with multi-id expansion (`Document.ObfuscateTree`);
  - group gating and format dispatch when loading;
  - the write-once byte cache of `patch` (`PatcherEngine.Patcher`).
- **Bytecode rewrites** (`Patches.java`): `removeAfterIndex`, `removeCodeUntilOpcode` and `lockToSynchronized`. Each works on a code `array` in place, with the opcodes of section 6.5 of the Java Virtual Machine Specification.
- **Expression scans** (`Patches.java`):
  - the two-pass field-initializer correlation of `replaceFieldInitializer`;
  - the call selection of `replaceMethodCall`, `lockMethodCall` and `synchronizeMethodCall`;
  - the field-access selection of `replaceFieldAccess`;
  - the string helpers these use, including `classSignatureToName` (the `L…;` form of section 4.3.2 of the Java Virtual Machine Specification).
- **Member edits** (`Patches.java`):
  - access-flag set and clear (sections 4.5 and 4.6 of the Java Virtual Machine Specification);
  - the `_sync<i>` name search of `synchronize`;
  - `addInitializer` and `addField`.

  These work on a `ClassMembers` object whose field and method lists the patches reassign.
- **Document text** (`DomUtil.java`):
  - the XML escaper (the predefined entities of section 4.6 of XML 1.0);
  - the JSON string escaper (section 7 of RFC 8259);
  - the JSON-to-XML converter;
  - the `"""…"""` pre-pass of `makePatchXmlFromJson`;
  - `elementList`.
- **Mappings** (`Mappings.java`, `DefaultMappings.java`) and **collection helpers** (`CollectionsUtil.java`).

Loops in the source are methods with loop invariants. Each is proved equal to a
specification function, and the promised properties are lemmas about those
functions. The class pool, javassist's view of a class, the XML and JSON
parsers, system properties and the `MethodDescription` helpers are function
parameters.

## Model

| member | source | states |
|---|---|---|
| Bytecode.RemoveAfterIndex | src/main/java/me/nallar/javapatcher/patcher/Patches.java:746-760 | the code array becomes `CutAfter` of its old contents |
| Bytecode.CutAfterShape | src/main/java/me/nallar/javapatcher/patcher/Patches.java:753-757 | length kept, bytes before `index` kept, `[index, len-1)` NOP (index included), last byte RETURN |
| Bytecode.CutAfterTwice | src/main/java/me/nallar/javapatcher/patcher/Patches.java:753-757 | cutting twice equals cutting once at the smaller index |
| Bytecode.RemoveCodeUntilOpcode | src/main/java/me/nallar/javapatcher/patcher/Patches.java:713-744 | `removed` counts the selected occurrences; the code is NOP-filled through each selected occurrence |
| Bytecode.VisitNext | src/main/java/me/nallar/javapatcher/patcher/Patches.java:725-737 | one loop step keeps the selection so far consistent; with -2 the first hit completes the selection |
| Bytecode.NopUpTo | src/main/java/me/nallar/javapatcher/patcher/Patches.java:729-731 | the array becomes its old contents with bytes `0..index` set to NOP |
| Bytecode.NopThroughOver | src/main/java/me/nallar/javapatcher/patcher/Patches.java:729-731 | NOP-filling through a later position extends the removed prefix |
| Bytecode.OccurrencesMembers | src/main/java/me/nallar/javapatcher/patcher/Patches.java:725-728 | a position is an occurrence iff it starts an instruction holding the opcode |
| Bytecode.OccurrencesIncreasing | src/main/java/me/nallar/javapatcher/patcher/Patches.java:725-728 | occurrences are visited in increasing position order |
| Bytecode.RemoveUntilLastOccurrence | src/main/java/me/nallar/javapatcher/patcher/Patches.java:716-731 | a negative index other than -2 (so also the default -1) NOPs everything up to every occurrence and keeps every byte after the last one |
| Bytecode.FirstOccurrence | src/main/java/me/nallar/javapatcher/patcher/Patches.java:725-728 | no occurrence iff no instruction has the opcode; else the first is the least such position |
| Bytecode.RemoveUntilFirstOccurrence | src/main/java/me/nallar/javapatcher/patcher/Patches.java:728-736 | index -2: code unchanged when there is no occurrence, else NOP exactly through the first occurrence |
| Bytecode.RemoveUntilNthOccurrence | src/main/java/me/nallar/javapatcher/patcher/Patches.java:717-731 | index k ≥ 0 selects at most one occurrence, the one with exactly k occurrences before it, and only if k is below their number |
| Bytecode.MonitorFor | src/main/java/me/nallar/javapatcher/patcher/Patches.java:1218-1224 | `lock` gives MONITORENTER, `unlock` MONITOREXIT, any other name nothing |
| Bytecode.Decision | src/main/java/me/nallar/javapatcher/patcher/Patches.java:1213-1251 | a rewrite happens only at INVOKEINTERFACE/INVOKEVIRTUAL, to a monitor opcode, over that instruction's operand width |
| Bytecode.LockToSynchronized | src/main/java/me/nallar/javapatcher/patcher/Patches.java:1203-1255 | `done` is `LockCount` and the code is `LockAll` of the old code |
| Bytecode.LockOne | src/main/java/me/nallar/javapatcher/patcher/Patches.java:1211-1251 | one instruction: hit iff a rewrite is decided, and the array is rewritten exactly by that decision |
| Bytecode.OperandsFit | src/main/java/me/nallar/javapatcher/patcher/Patches.java:1227-1230 | the NOP-padded operand bytes stay inside the instruction and the code |
| Bytecode.LockAllRewritten | src/main/java/me/nallar/javapatcher/patcher/Patches.java:1218-1249 | a rewritten instruction holds the monitor opcode followed by 4 (interface) or 2 (virtual) NOPs |
| Bytecode.LockAllElsewhere | src/main/java/me/nallar/javapatcher/patcher/Patches.java:1210-1252 | every byte outside the rewritten instructions is unchanged |
| Bytecode.LockAllStable | src/main/java/me/nallar/javapatcher/patcher/Patches.java:1210-1252 | later steps never change bytes before the current instruction |
| Bytecode.LockAllUntouched | src/main/java/me/nallar/javapatcher/patcher/Patches.java:1210-1252 | bytes not yet reached are unchanged |
| Bytecode.DecisionReadsFrom | src/main/java/me/nallar/javapatcher/patcher/Patches.java:1210-1252 | a decision depends only on bytes from its position on, so earlier writes do not affect it |
| Bytecode.LockCountZero | src/main/java/me/nallar/javapatcher/patcher/Patches.java:1209-1246 | `done` is 0 iff the code is unchanged |
| Bytecode.LockCountWitness | src/main/java/me/nallar/javapatcher/patcher/Patches.java:1209-1246 | `done` is positive iff some instruction is rewritten |
| ClassPatches.NewPatchDescriptor | src/main/java/me/nallar/javapatcher/patcher/Patcher.java:296-300 | attributes and tag copied; the method list is a trimmed slice of the text content |
| ClassPatches.ClassName | src/main/java/me/nallar/javapatcher/patcher/Patcher.java:453-456 | the mapped class name, or the `id` itself when the mapping gives none |
| ClassPatches.MapMethodsIsMapList | src/main/java/me/nallar/javapatcher/patcher/Patcher.java:463 | mapping the method list agrees entry by entry with `Mappings.map(List)` |
| ClassPatches.ParameterIndex | src/main/java/me/nallar/javapatcher/patcher/Patcher.java:490 | `Integer.valueOf(..) - 1` in 32-bit arithmetic: in int range and equal to v-1 modulo 2^32 |
| ClassPatches.ParameterIndexUnique | src/main/java/me/nallar/javapatcher/patcher/Patcher.java:490 | that wrapped value is the only one with those properties |
| ClassPatches.Rename | src/main/java/me/nallar/javapatcher/patcher/Patcher.java:507-510 | `field` becomes `prefix + mapped + after` when the mapping is non-null, else the patch is unchanged |
| ClassPatches.BuildClassPatch | src/main/java/me/nallar/javapatcher/patcher/Patcher.java:452-513 | the constructor's loop equals `ClassPatchSpec` |
| ClassPatches.PatchElement | src/main/java/me/nallar/javapatcher/patcher/Patcher.java:457-512 | one patch element is processed as `PatchStep` specifies |
| ClassPatches.PatchesStopStays | src/main/java/me/nallar/javapatcher/patcher/Patcher.java:495-500 | after a `break` no later patch element changes the result |
| ClassPatches.PatchesInOrder | src/main/java/me/nallar/javapatcher/patcher/Patcher.java:457-459 | the patches are the step results of the first children, in order, all of them if no break |
| ClassPatches.ClassPatchInOrder | src/main/java/me/nallar/javapatcher/patcher/Patcher.java:457-459 | the k-th patch has the k-th child's tag as operation name |
| ClassPatches.PatchStepKeepsTag | src/main/java/me/nallar/javapatcher/patcher/Patcher.java:457-459 | a patch element keeps its tag through method mapping and field resolution |
| ClassPatches.BreakDropsRest | src/main/java/me/nallar/javapatcher/patcher/Patcher.java:459-500 | a breaking element is still added, and every following element is dropped |
| ClassPatches.ResolveFieldOnlyField | src/main/java/me/nallar/javapatcher/patcher/Patcher.java:465-511 | field resolution changes only the `field` attribute, and nothing at a break |
| ClassPatches.ParameterFieldAgreed | src/main/java/me/nallar/javapatcher/patcher/Patcher.java:476-509 | when every listed method has type t at slot N-1, `$N.f` is renamed through the field mapping of (t, f) |
| ClassPatches.ParameterFieldDisagreed | src/main/java/me/nallar/javapatcher/patcher/Patcher.java:484-501 | two methods with different types at slot N-1 make the element break, unchanged |
| ClassPatches.DefaultKeepsField | src/main/java/me/nallar/javapatcher/patcher/Patcher.java:465-511 | under the identity mapping a resolved patch element is unchanged |
| ClassPatches.UndottedDefaultKeeps | src/main/java/me/nallar/javapatcher/patcher/Patcher.java:465-510 | an undotted field always resolves, unchanged, under the identity mapping |
| ClassPatches.DottedDefaultKeeps | src/main/java/me/nallar/javapatcher/patcher/Patcher.java:472-510 | a dotted field that resolves is unchanged under the identity mapping |
| ClassPatches.ParameterFieldDefaultKeeps | src/main/java/me/nallar/javapatcher/patcher/Patcher.java:475-509 | a resolved `$N.f` is unchanged under the identity mapping |
| ClassPatches.RenameDefaultKeeps | src/main/java/me/nallar/javapatcher/patcher/Patcher.java:507-510 | renaming through the identity mapping rebuilds the same `field` value |
| Descriptors.MakeOperation | src/main/java/me/nallar/javapatcher/patcher/Patcher.java:334-348 | name defaults to the method name; required attributes present iff the method takes a map, each non-empty, trimmed and comma-free; class-patch and empty-constructor flags copied |
| Descriptors.RequiredAttributesReparse | src/main/java/me/nallar/javapatcher/patcher/Patcher.java:337 | joining the split attribute list with commas and splitting again gives the same list |
| Descriptors.Select | src/main/java/me/nallar/javapatcher/patcher/Patcher.java:356-385 | each of the six outcomes holds exactly under its condition, in the source's order of checks |
| Descriptors.AllTargetsOrder | src/main/java/me/nallar/javapatcher/patcher/Patcher.java:362-368 | `^all^` targets are the methods, then the constructors, then the initializer if present |
| Descriptors.InvokeEach | src/main/java/me/nallar/javapatcher/patcher/Patcher.java:369-377 | invoking every target equals `InvokeUpTo`, one invocation per target in order |
| Descriptors.InvokeListed | src/main/java/me/nallar/javapatcher/patcher/Patcher.java:386-398 | the listed-method loop equals `InvokeListedUpTo`; unresolvable ones are skipped |
| Descriptors.ListedNeverOnClass | src/main/java/me/nallar/javapatcher/patcher/Patcher.java:386-398 | listed invocations target members only, with this operation and the same attributes |
| Descriptors.Run | src/main/java/me/nallar/javapatcher/patcher/Patcher.java:350-401 | `run` equals `RunSpec` |
| Descriptors.RunMissingAttributes | src/main/java/me/nallar/javapatcher/patcher/Patcher.java:356-359 | missing required attributes: nothing invoked, null result, state and attributes unchanged |
| Descriptors.RunResultOnlyFromClass | src/main/java/me/nallar/javapatcher/patcher/Patcher.java:372-400 | a non-null result only on the whole-class path, from its single class invocation |
| Descriptors.RunAllMembers | src/main/java/me/nallar/javapatcher/patcher/Patcher.java:360-371 | `^all^` writes `silent=true` into the shared attributes, then invokes every target once, in order, with those attributes |
| Descriptors.RunPatches | src/main/java/me/nallar/javapatcher/patcher/Patcher.java:515-528 | the loop equals `RunPatchesUpTo` over all patches |
| Descriptors.RunPatchesNext | src/main/java/me/nallar/javapatcher/patcher/Patcher.java:516-525 | a known patch runs on the current class; only a class result replaces it; the attribute changes are kept |
| Descriptors.RunPatchesStopped | src/main/java/me/nallar/javapatcher/patcher/Patcher.java:517-521 | after the stop nothing changes |
| Descriptors.RunPatchesUnknownStops | src/main/java/me/nallar/javapatcher/patcher/Patcher.java:517-521 | the first unknown patch name ends the run with the class as it is |
| Descriptors.RunPatchesKnownPrefix | src/main/java/me/nallar/javapatcher/patcher/Patcher.java:516-521 | the run stops iff some patch name among those reached is unknown |
| Descriptors.BuildParameterList | src/main/java/me/nallar/javapatcher/patcher/Patcher.java:476-489 | the nested loop equals `ParameterSlots` |
| Descriptors.AddParametersMeaning | src/main/java/me/nallar/javapatcher/patcher/Patcher.java:481-488 | a slot is appended when new, kept when equal, cleared to null when different |
| Descriptors.ParameterSlotsMeaning | src/main/java/me/nallar/javapatcher/patcher/Patcher.java:476-489 | the list is as long as the longest parameter list; a non-null slot is the type every method agrees on; a null slot has two methods that disagree |
| Descriptors.ParameterSlotsFailStays | src/main/java/me/nallar/javapatcher/patcher/Patcher.java:484-485 | once a third method meets a cleared slot, the failure is final |
| Document.ObfuscateTree | src/main/java/me/nallar/javapatcher/patcher/Patcher.java:246-268 | the in-place pass equals `Obfuscate` of the root |
| Document.ObfuscateOne | src/main/java/me/nallar/javapatcher/patcher/Patcher.java:247-255 | one child: recurse or obfuscate the leaf text, then every attribute |
| Document.ObfuscateAttrs | src/main/java/me/nallar/javapatcher/patcher/Patcher.java:252-255 | same keys, each value passed through `obfuscate` exactly once |
| Document.ExpandChildren | src/main/java/me/nallar/javapatcher/patcher/Patcher.java:257-268 | the id-expansion loop equals `Expand` of the children |
| Document.CloneChild | src/main/java/me/nallar/javapatcher/patcher/Patcher.java:259-266 | one child becomes `ExpandOne` of it |
| Document.ExpandOneClones | src/main/java/me/nallar/javapatcher/patcher/Patcher.java:260-264 | the i-th copy is a deep clone whose `id` is the i-th token trimmed, with a single id |
| Document.ExpandSingles | src/main/java/me/nallar/javapatcher/patcher/Patcher.java:257-268 | children with 0 or 1 id tokens are left as they are |
| Document.ExpandIdempotent | src/main/java/me/nallar/javapatcher/patcher/Patcher.java:257-268 | expanding twice equals expanding once |
| Document.ExpandLength | src/main/java/me/nallar/javapatcher/patcher/Patcher.java:257-268 | expansion never shrinks the list, and keeps its length iff no child has two or more tokens |
| Document.ObfuscateIdentity | src/main/java/me/nallar/javapatcher/patcher/Patcher.java:246-268 | with the identity `obfuscate` and single ids the pass changes nothing |
| PatcherEngine.Register | src/main/java/me/nallar/javapatcher/patcher/Patcher.java:287 | `put` on the multimap appends under the class name and leaves the other names alone |
| PatcherEngine.Patcher.constructor | src/main/java/me/nallar/javapatcher/patcher/Patcher.java:61-79 | a patcher starts with an empty cache and no class patches |
| PatcherEngine.Patcher.WillPatch | src/main/java/me/nallar/javapatcher/patcher/Patcher.java:179-181 | true iff at least one class patch is registered for the name |
| PatcherEngine.Patcher.Patch | src/main/java/me/nallar/javapatcher/patcher/Patcher.java:200-222 | the returned bytes, cache and registry are those of `PatchSpec` |
| PatcherEngine.RunAll | src/main/java/me/nallar/javapatcher/patcher/Patcher.java:211-213 | the loop over class patches equals `RunAllUpTo` |
| PatcherEngine.RunAllThreads | src/main/java/me/nallar/javapatcher/patcher/Patcher.java:211-213 | each class patch runs on the class the previous one returned |
| PatcherEngine.CacheHit | src/main/java/me/nallar/javapatcher/patcher/Patcher.java:201-204 | a cached class returns the cached bytes; nothing is loaded, run or changed |
| PatcherEngine.NothingToPatch | src/main/java/me/nallar/javapatcher/patcher/Patcher.java:205-208 | no registered patch: the original bytes are returned, cache unchanged |
| PatcherEngine.CacheWriteOnce | src/main/java/me/nallar/javapatcher/patcher/Patcher.java:209-221 | existing entries are kept, only this class can be added, stored bytes are returned, and otherwise the original bytes with the cache unchanged |
| PatcherEngine.SecondCallSameBytes | src/main/java/me/nallar/javapatcher/patcher/Patcher.java:201-215 | after a successful patch a second call returns the same bytes and changes nothing |
| PatcherEngine.PatchKeepsRegistry | src/main/java/me/nallar/javapatcher/patcher/Patcher.java:211-213 | patching keeps every name's class patches, in number and name |
| PatcherEngine.Patcher.LoadPatchGroup | src/main/java/me/nallar/javapatcher/patcher/Patcher.java:271-289 | the registry and error are those of `LoadGroupSpec` |
| PatcherEngine.Patcher.RegisterAll | src/main/java/me/nallar/javapatcher/patcher/Patcher.java:280-288 | the class-element loop equals `GroupUpTo` |
| PatcherEngine.GroupNext | src/main/java/me/nallar/javapatcher/patcher/Patcher.java:280-288 | a class element registers its patch, or ends loading with an error naming its `id` |
| PatcherEngine.GroupFailsIff | src/main/java/me/nallar/javapatcher/patcher/Patcher.java:282-286 | a group fails iff some class patch cannot be built |
| PatcherEngine.GroupRegistersEach | src/main/java/me/nallar/javapatcher/patcher/Patcher.java:280-288 | after a successful group every built class patch is registered under its name |
| PatcherEngine.GatedGroupSkipped | src/main/java/me/nallar/javapatcher/patcher/Patcher.java:273-277 | a group whose `requireProperty` is not set is skipped entirely |
| PatcherEngine.GroupExtends | src/main/java/me/nallar/javapatcher/patcher/Patcher.java:280-288 | loading only appends to the registry |
| PatcherEngine.LoadGroupExtends | src/main/java/me/nallar/javapatcher/patcher/Patcher.java:271-289 | a patch group only appends to the registry |
| PatcherEngine.Patcher.LoadDocument | src/main/java/me/nallar/javapatcher/patcher/Patcher.java:151-157 | every child of the document element is loaded as a patch group, in order |
| PatcherEngine.DocumentExtends | src/main/java/me/nallar/javapatcher/patcher/Patcher.java:151-157 | loading a document only appends to the registry |
| PatcherEngine.Patcher.LoadXml | src/main/java/me/nallar/javapatcher/patcher/Patcher.java:143-149 | an XML text is parsed, then loaded as a document; a parse failure is an error |
| PatcherEngine.Patcher.LoadPatches | src/main/java/me/nallar/javapatcher/patcher/Patcher.java:113-125 | the first character picks XML (`<`) or JSON (`[`, `{`) |
| PatcherEngine.LoadPatchesExtends | src/main/java/me/nallar/javapatcher/patcher/Patcher.java:113-125 | loading only appends; any other first character is an unknown format and changes nothing |
| ExprScan.ClassSignatureToName | src/main/java/me/nallar/javapatcher/patcher/Patches.java:57-60 | defined iff the signature has two characters to strip; the result is two shorter and has no `/` |
| ExprScan.SignatureToNameRoundTrip | src/main/java/me/nallar/javapatcher/patcher/Patches.java:57-60 | a dotted name written as `L…;` with slashes converts back to the name |
| ExprScan.NameToSignatureRoundTrip | src/main/java/me/nallar/javapatcher/patcher/Patches.java:57-60 | a slash-form `L…;` signature converts to a name and back to itself |
| ExprScan.InitializerCode | src/main/java/me/nallar/javapatcher/patcher/Patches.java:317-322 | `code` wins; else `$_ = new <fieldClass>();`; neither is the error |
| ExprScan.InitializerScanner.Edit | src/main/java/me/nallar/javapatcher/patcher/Patches.java:337-389 | one editor callback moves the scanner's fields as `Step` does, or fails |
| ExprScan.FirstPass | src/main/java/me/nallar/javapatcher/patcher/Patches.java:334-390 | the first editor yields the recorded map of `Scan`, or fails with it |
| ExprScan.ScanMeaning | src/main/java/me/nallar/javapatcher/patcher/Patches.java:341-358 | the new-expression counter, the pending candidate, and k recorded iff some new expression correlates with the access after it |
| ExprScan.FirstPassRecords | src/main/java/me/nallar/javapatcher/patcher/Patches.java:341-389 | position k is recorded iff the k-th new expression is a subtype and the very next event accesses `field` |
| ExprScan.ScanFails | src/main/java/me/nallar/javapatcher/patcher/Patches.java:353-358 | the scan fails iff a subtype `new` is directly followed by an access with no readable name, or named `field` with a signature too short to convert |
| ExprScan.SecondPass | src/main/java/me/nallar/javapatcher/patcher/Patches.java:391-405 | the second editor replaces exactly the `Sites` and counts them |
| ExprScan.SitesCount | src/main/java/me/nallar/javapatcher/patcher/Patches.java:392-403 | there are as many sites as recorded positions not beyond the new-expression count |
| ExprScan.ReplacedEqualsRecorded | src/main/java/me/nallar/javapatcher/patcher/Patches.java:391-405 | `replaced` equals the number of recorded positions |
| ExprScan.Setup | src/main/java/me/nallar/javapatcher/patcher/Patches.java:308-322 | checked in order: `classContainingField` on a class target only warns; an undeclared field throws; no `code` and no `fieldClass` throws; otherwise the initializer of `InitializerCode` |
| ExprScan.ReplaceFieldInitializer | src/main/java/me/nallar/javapatcher/patcher/Patches.java:300-409 | the setup outcome is `Setup`: a warning replaces nothing and reports no error, a thrown setup has no total; once ready, the total is `TotalReplaced` over the behaviours and the error is reported iff it is 0 and `silent` is absent |
| ExprScan.ScanBehaviours | src/main/java/me/nallar/javapatcher/patcher/Patches.java:333-409 | the two-pass loop over the behaviours equals `TotalReplaced`; the error is reported iff the total is 0 and `silent` is absent |
| ExprScan.TotalNext | src/main/java/me/nallar/javapatcher/patcher/Patches.java:334-406 | each behaviour adds its replaced sites to the total, or fails it |
| ExprScan.SplitTarget | src/main/java/me/nallar/javapatcher/patcher/Patches.java:637-646 | class and method rejoin to the attribute; split at the last dot (no dot in the name) or the first dot (no dot in the class) |
| ExprScan.ReplaceCallTarget | src/main/java/me/nallar/javapatcher/patcher/Patches.java:642-649 | `replaceMethodCall` splits at the last dot and maps class `self` to the declaring class |
| ExprScan.ParseIndex | src/main/java/me/nallar/javapatcher/patcher/Patches.java:650-664 | a missing index is -1; otherwise `Integer.valueOf` of it |
| ExprScan.ReplaceCallCode | src/main/java/me/nallar/javapatcher/patcher/Patches.java:657-662 | `code` wins; otherwise `$_ = $0.<newMethod>($$);` |
| ExprScan.SelectCalls | src/main/java/me/nallar/javapatcher/patcher/Patches.java:668-697 | the editor acts on exactly the calls `CallSpec` names |
| ExprScan.ChosenCallsMembers | src/main/java/me/nallar/javapatcher/patcher/Patches.java:673-681 | a call is acted on iff it is chosen by the index rule and passes the `newMethod` lookup |
| ExprScan.EveryMatchingCall | src/main/java/me/nallar/javapatcher/patcher/Patches.java:673 | index -1 chooses every call matching class and name |
| ExprScan.NoCallBelowMinusOne | src/main/java/me/nallar/javapatcher/patcher/Patches.java:673 | an index below -1 chooses nothing |
| ExprScan.OnlyTheIndexedCall | src/main/java/me/nallar/javapatcher/patcher/Patches.java:673 | index k ≥ 0 chooses at most one call, the matching one with k matches before it, and only if there are more than k |
| ExprScan.CutAtFirstCall | src/main/java/me/nallar/javapatcher/patcher/Patches.java:684-691 | with `removeAfter`, the code is cut at the first chosen call and nothing else is acted on |
| ExprScan.ReplaceFieldAccess | src/main/java/me/nallar/javapatcher/patcher/Patches.java:588-633 | no read or write code is the error; otherwise the outcome is `AccessSpec` |
| ExprScan.ScanAccesses | src/main/java/me/nallar/javapatcher/patcher/Patches.java:599-629 | the editor loop equals `AccessSpec` |
| ExprScan.AccessCode | src/main/java/me/nallar/javapatcher/patcher/Patches.java:619-624 | a write uses `writeCode` and a read `readCode`, else the access is left alone |
| ExprScan.MatchedAccessesMembers | src/main/java/me/nallar/javapatcher/patcher/Patches.java:602-609 | an access counts iff its name is readable, equals `field`, and its class matches when one is given |
| ExprScan.CutAtFirstAccess | src/main/java/me/nallar/javapatcher/patcher/Patches.java:609-618 | with `removeAfter`, the code is cut at the first matching access, counted once, with no replacement |
| ExprScan.EveryMatchingAccess | src/main/java/me/nallar/javapatcher/patcher/Patches.java:609-625 | without `removeAfter` every matching access is counted, and replaced when it has code |
| Modifiers.SetFlag | src/main/java/me/nallar/javapatcher/patcher/Patches.java:467-472 | the flag is set and every other flag kept |
| Modifiers.ClearFlag | src/main/java/me/nallar/javapatcher/patcher/Patches.java:487 | the flag is cleared and every other flag kept |
| Modifiers.SetFlagIdempotent | src/main/java/me/nallar/javapatcher/patcher/Patches.java:462-474 | setting a flag twice equals setting it once |
| Modifiers.ClearFlagIdempotent | src/main/java/me/nallar/javapatcher/patcher/Patches.java:487 | clearing a flag twice equals clearing it once |
| Modifiers.EditFlags | src/main/java/me/nallar/javapatcher/patcher/Patches.java:462-511 | `setVolatile`/`setFinal` set, `unsetVolatile` clears, only their flag |
| Modifiers.ClassMembers.EditField | src/main/java/me/nallar/javapatcher/patcher/Patches.java:462-511 | fields become `FieldEditSpec`; a named field that does not exist is the error |
| Modifiers.FieldEditIdempotent | src/main/java/me/nallar/javapatcher/patcher/Patches.java:462-511 | each field edit is idempotent |
| Modifiers.FieldEditOnlyTouchesFlag | src/main/java/me/nallar/javapatcher/patcher/Patches.java:462-511 | an edit changes only the one flag, and only of the named field or, with none named, of primitive fields |
| Modifiers.ClassMembers.UnsetSynchronized | src/main/java/me/nallar/javapatcher/patcher/Patches.java:1140-1142 | clears SYNCHRONIZED on that method only |
| Modifiers.ClassMembers.FreeSyncIndex | src/main/java/me/nallar/javapatcher/patcher/Patches.java:1155-1162 | the index found is the least i with `name_sync<i>` undeclared |
| Modifiers.LeastFreeUnique | src/main/java/me/nallar/javapatcher/patcher/Patches.java:1155-1162 | that least free index is unique |
| Modifiers.SyncNameInjective | src/main/java/me/nallar/javapatcher/patcher/Patches.java:1155-1163 | different indices give different `_sync` names |
| Modifiers.TakenBound | src/main/java/me/nallar/javapatcher/patcher/Patches.java:1155-1162 | the search ends: the index is at most the number of declared names |
| Modifiers.ClassMembers.Synchronize | src/main/java/me/nallar/javapatcher/patcher/Patches.java:1144-1177 | methods become `SyncOne`; the warning is given iff there is no field and the method is already synchronized |
| Modifiers.ClassMembers.SetSynchronized | src/main/java/me/nallar/javapatcher/patcher/Patches.java:1116-1137 | methods become `SetSynchronizedSpec`; the count is the number of methods with the requested staticness; the error is raised iff that is 0 on a class |
| Modifiers.SyncNext | src/main/java/me/nallar/javapatcher/patcher/Patches.java:1124-1130 | one loop step synchronizes the method iff its staticness matches, and counts it |
| Modifiers.SyncWithoutField | src/main/java/me/nallar/javapatcher/patcher/Patches.java:1145-1151 | without a field, each matching method gets SYNCHRONIZED and nothing else changes |
| Modifiers.SyncWithField | src/main/java/me/nallar/javapatcher/patcher/Patches.java:1152-1176 | with a field, each matching method is renamed `_sync<i>` and one wrapper is added per match |
| Modifiers.AssignBlockRoundTrip | src/main/java/me/nallar/javapatcher/patcher/Patches.java:892 | the expression can be read back out of `{ field = expr; }` |
| Modifiers.ClassMembers.AddInitializer | src/main/java/me/nallar/javapatcher/patcher/Patches.java:887-909 | static field: class initializer; else `runConstructors`, created once with `isConstructed` and the constructor guard; a missing field is the error |
| Modifiers.NewField | src/main/java/me/nallar/javapatcher/patcher/Patches.java:925-945 | name and type as given, public, static iff asked, no initializer iff code is `none`, default `new <class>();` |
| Modifiers.ClassMembers.AddField | src/main/java/me/nallar/javapatcher/patcher/Patches.java:921-946 | an existing field is only warned about; an unknown type is the error; else the new field is appended |
| Modifiers.AddedFieldFound | src/main/java/me/nallar/javapatcher/patcher/Patches.java:929-945 | the appended field is then found by name |
| DomUtil.EscapeStringForXml | src/main/java/me/nallar/javapatcher/patcher/DomUtil.java:211-236 | the loop equals `XmlEscaped` |
| DomUtil.XmlEscapedNoMarkup | src/main/java/me/nallar/javapatcher/patcher/DomUtil.java:215-230 | the output has no raw `<`, `>`, `"` or `'` |
| DomUtil.XmlEscapedIdentity | src/main/java/me/nallar/javapatcher/patcher/DomUtil.java:213-233 | a string without the five special characters is returned unchanged |
| DomUtil.XmlRoundTrip | src/main/java/me/nallar/javapatcher/patcher/DomUtil.java:211-236 | decoding the five entities gives the input back |
| DomUtil.XmlUnescapeAppend | src/main/java/me/nallar/javapatcher/patcher/DomUtil.java:211-236 | the escaped text decodes to itself whatever follows |
| DomUtil.EscapeStringForJson | src/main/java/me/nallar/javapatcher/patcher/DomUtil.java:238-285 | the loop equals `JsonEscaped`; null or empty gives `""` |
| DomUtil.ControlEscapeDigits | src/main/java/me/nallar/javapatcher/patcher/DomUtil.java:275-277 | a control character becomes `\u00` and exactly two more hex digits |
| DomUtil.JsonBodyNoControl | src/main/java/me/nallar/javapatcher/patcher/DomUtil.java:250-282 | the escaped body holds no raw control character |
| DomUtil.JsonRoundTrip | src/main/java/me/nallar/javapatcher/patcher/DomUtil.java:238-285 | the output is a JSON string literal that reads back as the input (null as empty) |
| DomUtil.AttributeValueDecodes | src/main/java/me/nallar/javapatcher/patcher/DomUtil.java:134-139 | an attribute value has no quote or `<` and reads back as the member's text, or `true` for the empty string |
| DomUtil.AttributesPerMember | src/main/java/me/nallar/javapatcher/patcher/DomUtil.java:127-143 | one ` key="value"` per non-object member, in member order |
| DomUtil.TargetTextDecodes | src/main/java/me/nallar/javapatcher/patcher/DomUtil.java:151-160 | a `target` array's text reads back as its entries joined by newlines |
| DomUtil.ScalarXml | src/main/java/me/nallar/javapatcher/patcher/DomUtil.java:203-206 | `<tag/>` iff the text is empty, else `<tag>…</tag>` reading back as the text; untagged is quoted |
| DomUtil.ReplaceTripleQuoted | src/main/java/me/nallar/javapatcher/patcher/DomUtil.java:101-107 | the find/append loop equals `PrePass` |
| DomUtil.RewriteStep | src/main/java/me/nallar/javapatcher/patcher/DomUtil.java:100-107 | each non-greedy region is replaced by the literal of its contents, text before it copied |
| DomUtil.RewriteIdentity | src/main/java/me/nallar/javapatcher/patcher/DomUtil.java:103-106 | text without `"""` passes through unchanged |
| DomUtil.RewriteOneRegion | src/main/java/me/nallar/javapatcher/patcher/DomUtil.java:100-107 | one region becomes a JSON string literal that reads back as the region |
| DomUtil.FindTripleFirst | src/main/java/me/nallar/javapatcher/patcher/DomUtil.java:100-107 | the search finds the first `"""` at or after the position |
| DomUtil.MakePatchXmlFromJson | src/main/java/me/nallar/javapatcher/patcher/DomUtil.java:100-113 | pre-pass, then an object converts to XML; anything else is the invalid-JSON error with the rewritten text |
| DomUtil.ElementList | src/main/java/me/nallar/javapatcher/patcher/DomUtil.java:36-46 | the loop equals `Elements` |
| DomUtil.ElementsKeepsExactlyElements | src/main/java/me/nallar/javapatcher/patcher/DomUtil.java:39-43 | an element is kept iff it is an element node; all kept iff all nodes are elements |
| Mappings.MapOne | src/main/java/me/nallar/javapatcher/mappings/Mappings.java:20-25 | each description maps to one of its own kind |
| Mappings.MapList | src/main/java/me/nallar/javapatcher/mappings/Mappings.java:16-31 | the loop equals `MapAll` |
| Mappings.MapAllSucceeds | src/main/java/me/nallar/javapatcher/mappings/Mappings.java:16-31 | all mappable: same length, i-th entry is the per-kind map of the i-th, nulls kept in place |
| Mappings.MapAllFirstUnmappable | src/main/java/me/nallar/javapatcher/mappings/Mappings.java:26-28 | the first unmappable element is the one reported |
| Mappings.MapAllFailsIff | src/main/java/me/nallar/javapatcher/mappings/Mappings.java:18-29 | the list fails iff some element is unmappable |
| Mappings.Default | src/main/java/me/nallar/javapatcher/mappings/DefaultMappings.java:8-30 | every map, `unmap` and `obfuscate` returns its argument |
| Mappings.DefaultMapAllIdentity | src/main/java/me/nallar/javapatcher/mappings/DefaultMappings.java:8-25 | `unmap(map(x)) == x`, and mapping a list gives the list back |
| CollectionsUtil.MapToString | src/main/java/me/nallar/javapatcher/patcher/CollectionsUtil.java:9-23 | empty iff no entries; otherwise `key:value` entries joined by single commas |
| CollectionsUtil.MapToStringSplits | src/main/java/me/nallar/javapatcher/patcher/CollectionsUtil.java:14-20 | splitting the result at commas gives the entries back: no leading or trailing comma |
| CollectionsUtil.ListToMap | src/main/java/me/nallar/javapatcher/patcher/CollectionsUtil.java:26-38 | the loop equals `PairUp` |
| CollectionsUtil.PairUpFlatten | src/main/java/me/nallar/javapatcher/patcher/CollectionsUtil.java:29-35 | consecutive key/value pairs are put in order |
| CollectionsUtil.PairUpSkipsNullKey | src/main/java/me/nallar/javapatcher/patcher/CollectionsUtil.java:30-31 | a null in key position is not a key |
| CollectionsUtil.PairUpTrailingKeyIgnored | src/main/java/me/nallar/javapatcher/patcher/CollectionsUtil.java:30-37 | a trailing unpaired key is ignored |
| CollectionsUtil.PairUpLaterKeyOverwrites | src/main/java/me/nallar/javapatcher/patcher/CollectionsUtil.java:32-34 | a later duplicate key overwrites the value |
| Text.JoinSplit | src/main/java/me/nallar/javapatcher/patcher/Patcher.java:27 | the pieces of a separator split rejoin to the input |
| Text.TokensProps | src/main/java/me/nallar/javapatcher/patcher/Patcher.java:27 | trimmed, empty-omitting tokens are non-empty, trimmed and free of the separator |
| Text.Trim | src/main/java/me/nallar/javapatcher/patcher/Patcher.java:296-300 | the result is the input without leading and trailing trimmable characters |
| Text.ParseIntToString | src/main/java/me/nallar/javapatcher/patcher/Patches.java:650-653 | `Integer.valueOf` reads back every printed int |

## Left out

- Logging is left out. A log call that signals an outcome (the "nothing replaced" or "nothing synchronized" errors, the `synchronize` warning) is a boolean result instead.
- Compiling source text with javassist is left out (`setBody`, `insertBefore`/`insertAfter`, `Expr.replace`, `CtNewMethod.make`, `addCatch`). A replacement is recorded as the edit it would make.
- Operations that only compile code or copy members are left out: `mixin`, `transformClassStaticMethods`, `replaceMethod`, `replaceNewExpression` and similar.
- `Modifiers.ClassMembers.Synchronize`: with a field, the source moves every `AnnotationsAttribute` from the renamed `_sync<i>` method to the new wrapper. Annotations are not represented. The wrapper is a new method whose body is kept as source text (`synchronized(<field>) { return <renamed>($$); }`), not compiled.
- `Text.ParseInt` accepts ASCII digits only. Java's `Integer.valueOf`/`parseInt` accepts any Unicode decimal digit, through `Character.digit`.
- `replaceClass` is left out. It depends on `insertGapAt` and the descriptor iterator, which are not part of this model.
- Stack-map rebuilding is left out. The lookup of an opcode mnemonic is also left out; the opcode is an integer input.
- `Bytecode.RemoveAfterIndex` requires the index to be inside the code. Its callers pass the offset of an instruction; a larger index would make `writeByte` throw.
- `Bytecode.RemoveCodeUntilOpcode` and `Bytecode.LockToSynchronized` take the instruction start positions as an input. They are computed from the original code. The case of a method without code (`codeAttribute == null`) is not modelled.
- Building the patch registry by reflection is left out (the `Patcher` constructor's scan of `@Patch` methods). The registry is an input map from name to `Operation`. A duplicate name only warns and overwrites in the source.
- XML parsing, org.json parsing, `readInputStreamToString`, `saveByteCode` and class-file I/O are function parameters or left out. `System.getProperty`/`Boolean.getBoolean` is a predicate parameter.
- Concurrency is left out: the `synchronized` modifier on `patch` is not modelled, and calls are sequential.
- The `MethodDescription`, `ClassDescription` and `FieldDescription` helpers are uninterpreted functions (`fromListString`, `toListString`, `inClass`, `getShortName`, `getParameterList`). Their classes are not part of this model.
- `HashMap` and `HashSet` iteration order is left out. `mapToString` takes its entries, and `replaceFieldInitializer` its behaviours, as a sequence in iteration order. Likewise a `Json` object's member sequence stands for `JSONObject`'s key iteration order, a `HashMap`'s, which decides the order of attributes and children that `DomUtil.ToXml` writes.
- `ClassPatches.ClassName`: a class element without an `id` has class id `""` in the model. The source reads the id with `getAttributes(element).get("id")`, gets `null`, and passes it to `new ClassDescription(null)`; `ClassDescription` is not part of this model.
- In the obfuscation split and the load-error message, a missing `id` reads as `""`, as `getAttribute` returns it.
- `ClassPatches.BuildClassPatch`: a third method meeting a slot already cleared to `null` throws a `NullPointerException` in the source. The model reports this as a load failure (`ParameterSlotsFailStays`), not as a crash or a precondition.
- Exceptions thrown by patch methods are caught and logged by `run` in the source. The model's `invoke` returns the new class state, so an operation that fails partway is whatever state `invoke` returns.
- `PatcherEngine.Patcher.Patch` treats a class the pool cannot load, and a failing `toBytecode`, as the caught exception: the original bytes are returned. Exceptions from inside `runPatches` are not modelled separately.
- `ClassPatches.ParameterIndex` models the 32-bit wrap-around of `Integer.valueOf(..) - 1`. Other `int` arithmetic in the core never leaves the `int` range and is not wrapped.
- `Descriptors.Select` and `Descriptors.Run`: with `^static^` and no static initializer, the source logs an error and invokes nothing. The model does the same and does not return the error separately.
- The loading loops use the specification function `ClassPatchSpec` to build a class patch; `ClassPatches.BuildClassPatch` is proved equal to it.
- The code and the documentation disagree in places; the model follows the code:
  - `removeAfterIndex` NOPs from `index` inclusive.
  - `removeCodeUntilOpcode` defaults to index -1, every occurrence; its documentation says the 0th.
  - Id expansion runs at every level of the obfuscation recursion, and the root's own attributes are not obfuscated.
  - The field-initializer correlation accepts any access named `field`, read or write, whatever its owner.
