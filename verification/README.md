# pyxis in Dafny

A model of the core of pyxis. Pyxis is a reactive UI library in which JSX compiles to template objects, atoms notify the effects and components that read them, and lifecycles own the subscriptions made under them. The model also covers the JSX transpiler and the bundler plugin that ship with the library, and one gesture recogniser of the graph editor built on top of it.

The model is split into one module per component of the library:

- **Subscriptions.** A dependency edge sits in two doubly linked lists at once: the atom's subscriber list and the lifecycle's owned list.
  - `Dependency` models the edges as an arena, a map from handle to edge record with six pointer fields. Ghost sequences describe each list. The module defines `link`, `unlink` and their effect on every list.
  - `Teardown` models the edge loop of `notifyUnmounted`.
  - `Callbacks` models the singly linked mount and unmount callback lists and the drain loop that runs them.
  - `Scope` models the save/restore pattern of the current-owner pointer.
  - `Lifecycle` and `Context` are the two generations of the lifecycle API, each modelled as written.
- **Effects and proxies.**
  - `Effect` models the epoch-tagged effect: `reportAccess`, `scheduleEffect`, `resolve`, `runEffect` and `teardownEffect`.
  - `ProxyAtom` models the proxy atom that rebinds between mirroring an atom and holding a static value.
- **Lists.**
  - `Iterator` models the keyed-list reconciliation `onDelta`, the initial render and `getAnchor`.
  - `IteratorProxy` models `createProxy` and `updateProxy`.
- **Rendering.**
  - `Show` models conditional rendering.
  - `Renderer` and `Native` are the two generations of prop dispatch and child insertion.
  - `JsxFactory` and `JsxRuntime` are the two generations of the JSX entry points.
  - `Js` holds the JavaScript values and plain objects shared by these modules, with `wrap` and `isNil`.
- **Development helpers.**
  - `StateRegistry` models the hot-reload state registry.
  - `PressGesture` models the graph editor's press, long-press and multi-press recogniser.
- **Bundler plugin.**
  - `Position` models the line/column cursor.
  - `Sourcemap` models the Base64 VLQ codec and the `mappings` text, after the "Base64 VLQ" section of the Source Map Revision 3 format (ECMA-426).
  - `SourcemapBuild` models `buildSourcemap`.
  - `SourceIndex` models `replaceSourceIndex`.
  - `PluginOptions` models option resolution.
  - `PackageChecker` models the package-id matcher.
  - `Plugin` models language detection and the transform handler's result.
- **Transpiler.**
  - `TranspilerUtils` models import bookkeeping, code snippets and warnings.
  - `JsxChildren` models the conversion of JSX children into template objects.

Modules the library imports but whose text is not part of this model appear as abstract stand-ins:

- `Dependency.ts`'s `link` and `unlink` are the arena operations. `unlink` is reconstructed: it is the atom-list splice that `notifyUnmounted` writes out inline, followed by the same splice on the owner list, which `notifyUnmounted` does not perform. That it throws on a dead edge is inferred by analogy with the inline splice, which reads the nulled target's `$dh`.
- `schedule` appends a job to a queue.
- `mount`, `unmount` and `split` are events of a trace, or fresh ints.
- Clocks, distances, parsing results and the output of converters that are not modelled are parameters.

Where a source routine has a defect, the model carries a `Build` (or `Version`/`Policy`) switch. `AsWritten` is the code as it is, `Corrected` is the evidently intended behaviour, and both are proved about; see "Findings".

## Model

| member | source | states |
|---|---|---|
| Js.Wrap | packages/pyxis/src/support/common.ts:9-15 | an array comes back as it is, `null` and `undefined` give the shared empty array, anything else a new one-element array holding it |
| Js.Default | packages/pyxis/src/jsx/factory.ts:35 | `p.k ??= v` reads back `v` exactly when the property was `null` or `undefined`, else the old value; every other key reads as before |
| Js.SetGet | packages/pyxis/src/jsx/factory.ts:28-40 | assigning a property reads back the assigned value and leaves every other key as it was |
| Js.SetKeys | packages/pyxis/src/jsx/factory.ts:28-40 | assigning keeps the existing keys in order and appends a new key at the end |
| Js.SetDistinct | packages/pyxis/src/jsx/factory.ts:28-40 | assignment never duplicates a key |
| Js.GetIn | packages/pyxis/src/Renderer.ts:79-86 | a key the object has reads the value of the entry `for..in` visits |
| Callbacks.Append | packages/pyxis/src/data/Lifecycle.ts:76-90 | registration links a new node after the tail (or as head of an empty list) and makes it the tail |
| Callbacks.AppendHolds | packages/pyxis/src/data/Lifecycle.ts:76-90 | after registration the list holds the earlier callbacks in order followed by the new one |
| Callbacks.RunStopsAtFirstThrow | packages/pyxis/src/data/Lifecycle.ts:145-163 | the drain invokes every callback when none throws, otherwise exactly those up to and including the first that throws |
| Callbacks.DisposersAppend | packages/pyxis/src/data/Lifecycle.ts:60-74 | the disposers registered by a sequence of mount blocks are those of its parts, concatenated |
| Callbacks.Drain | packages/pyxis/src/data/Lifecycle.ts:145-163 | the drain loop invokes the callbacks in list order, each at most once, leaves head and tail null even when one throws, and appends each completed mount block's disposer to the unmount list |
| Callbacks.Register | packages/pyxis/src/data/Lifecycle.ts:60-74 | a completed mount block's disposer is appended to the unmount list under a fresh id, anything else leaves it; the list stays well formed and equals the disposers of the completed callbacks so far |
| Lifecycle.OnMounted | packages/pyxis/src/data/Lifecycle.ts:76-90 | the mount callback becomes the tail of the mount list; `mounted` and the unmount list are untouched |
| Lifecycle.OnUnmounted | packages/pyxis/src/data/Lifecycle.ts:97-109 | the unmount callback becomes the tail of the unmount list; the mount list is untouched |
| Lifecycle.Mounted | packages/pyxis/src/data/Lifecycle.ts:60-74 | `mounted(block)` registers a mount callback that will invoke the block and register its disposer |
| Lifecycle.Unmounted | packages/pyxis/src/data/Lifecycle.ts:92-95 | `unmounted(block)` registers the block itself as an unmount callback |
| Lifecycle.RegistrationOrder | packages/pyxis/src/data/Lifecycle.ts:76-109 | registering keeps every earlier callback in its place and puts the new one last, in the right list only |
| Lifecycle.GetLifecycle | packages/pyxis/src/data/Lifecycle.ts:111-117 | throws exactly in a dev build with no current lifecycle, otherwise returns the current one |
| Lifecycle.WithLifecycleScoped | packages/pyxis/src/data/Lifecycle.ts:125-143 | inside the block every read sees its innermost enclosing lifecycle, and afterwards the previous lifecycle is current again, on return and on throw |
| Lifecycle.GetInsideWithLifecycle | packages/pyxis/src/data/Lifecycle.ts:111-143 | a read directly inside `withLifecycle(owner, …)` sees `owner` and does not throw |
| Lifecycle.WithLifecycle | packages/pyxis/src/data/Lifecycle.ts:125-143 | the previous lifecycle is current afterwards; the block's reads and its throw are those of running it with the owner current |
| Lifecycle.NotifyMounted | packages/pyxis/src/data/Lifecycle.ts:145-164 | sets `mounted`, runs the mount callbacks once each in order, empties the mount list even on a throw, and registers each completed block's disposer on the same lifecycle |
| Lifecycle.NotifyUnmounted | packages/pyxis/src/data/Lifecycle.ts:166-221 | clears `mounted`, removes every owned edge from its atom's list (other edges keep their order), kills each, empties the owned list, then runs the unmount callbacks once each in order and empties that list even on a throw |
| Scope.Exec | packages/pyxis/src/data/Lifecycle.ts:125-143 | with the previous owner restored in `finally`, the pointer is back where it started after any block |
| Scope.RestoreIsScoped | packages/pyxis/src/data/Lifecycle.ts:125-143 | restoring the previous owner gives static scoping: each read sees its innermost enclosing owner, on return and on throw |
| Context.OnMounted | packages/pyxis/src/data/Context.ts:55-68 | the mount callback becomes the tail of the mount list; the unmount list is untouched |
| Context.OnUnmounted | packages/pyxis/src/data/Context.ts:75-88 | the unmount callback becomes the tail of the unmount list; the mount list is untouched |
| Context.RegistrationOrder | packages/pyxis/src/data/Context.ts:55-88 | registering keeps every earlier callback in its place and puts the new one last |
| Context.GetContext | packages/pyxis/src/data/Context.ts:90-97 | throws exactly in a dev build with no current context |
| Context.WithContext | packages/pyxis/src/data/Context.ts:105-122 | the block's reads and its throw are those of running it with the context current |
| Context.WithContextClears | packages/pyxis/src/data/Context.ts:105-122 | after `withContext` no context is current, whatever was current before and whether the block threw |
| Context.WithContextLosesOuter | packages/pyxis/src/data/Context.ts:105-122 | a read after a nested `withContext` sees null instead of the outer context, where the restoring version sees the outer one |
| Context.WithContextRestoringScoped | packages/pyxis/src/data/Context.ts:105-122 | with the previous context restored in `finally`, reads are statically scoped and the previous context comes back |
| Context.ContextMounted | packages/pyxis/src/data/Context.ts:124-141 | runs the mount callbacks once each in order and clears head and tail even on a throw; the unmount list is untouched |
| Context.ContextUnmounted | packages/pyxis/src/data/Context.ts:143-196 | tears down every owned edge as `notifyUnmounted` does, then runs the unmount callbacks once each in order and clears the list even on a throw |
| Dependency.Unlink | packages/pyxis/src/data/Lifecycle.ts:174-201 | `unlink` throws exactly on an edge whose target is already null; otherwise the edge is dead afterwards and no handle appears or disappears |
| Dependency.Link | packages/pyxis/src/data/Effect.ts:124-132 | `link` adds the edge with the given target, owner and callback argument |
| Dependency.SpliceEffect | packages/pyxis/src/data/Lifecycle.ts:174-201 | the splice rewires exactly the two neighbours (or head/tail at the ends) and touches no other edge |
| Dependency.SpliceFrame | packages/pyxis/src/data/Lifecycle.ts:174-201 | a splice on one side changes only the neighbours' pointers on that side |
| Dependency.UnlinkKeepsOthers | packages/pyxis/src/data/Lifecycle.ts:174-201 | unlinking leaves every other edge's target, owner and argument as they were |
| Dependency.UnlinkWellFormed | packages/pyxis/src/data/Lifecycle.ts:174-201 | unlinking a live edge of a well-formed arena succeeds and removes exactly that edge from its atom's list and its owner's list, every list keeping its other edges in order |
| Dependency.LinkKeepsOthers | packages/pyxis/src/data/Effect.ts:124-132 | linking leaves every other edge's target, owner and argument as they were |
| Dependency.LinkWellFormed | packages/pyxis/src/data/Effect.ts:124-132 | linking a fresh or dead edge appends it at the tail of its atom's list and of its owner's list, every other list unchanged |
| Dependency.SetArgWellFormed | packages/pyxis/src/data/Effect.ts:119-123 | refreshing an edge's epoch argument leaves every list as it was |
| Dependency.WellFormedClosed | packages/pyxis/src/data/Lifecycle.ts:166-201 | no pointer held by a well-formed arena dangles |
| Teardown.Strip | packages/pyxis/src/data/Lifecycle.ts:166-204 | each atom's list with the torn-down edges filtered out, order kept |
| Teardown.TeardownEdges | packages/pyxis/src/data/Lifecycle.ts:166-204 | every owned edge is spliced out of its atom's list and nulled, every atom list keeps its other edges in order, other lifecycles keep their lists, and the owned list ends empty |
| Effect.Create | packages/pyxis/src/data/Effect.ts:46-53 | an effect starts at epoch 1 with no dependency map and no disposer |
| Effect.ReportAccess | packages/pyxis/src/data/Effect.ts:114-133 | a no-op outside an effect; a tracked atom keeps its single edge, refreshed to the current epoch; an untracked atom gets exactly one new edge to the effect's lifecycle, tagged and recorded |
| Effect.ReportAccessKeeps | packages/pyxis/src/data/Effect.ts:114-133 | `reportAccess` keeps the arena well formed and every recorded edge present and live |
| Effect.ReportAccessKeepsEntries | packages/pyxis/src/data/Effect.ts:119-132 | a read keeps every earlier entry of the dependency map, each edge keeping its tag or taking the current epoch |
| Effect.LiveDepsHeard | packages/pyxis/src/data/Effect.ts:114-133 | every live recorded edge is in its atom's subscriber list, so the atom's notifications reach the effect |
| Effect.Resolve | packages/pyxis/src/data/Effect.ts:97-108 | bumps the epoch by one, tracks every atom the block reads with an edge of the new epoch, and leaves no effect current, also when the block throws |
| Effect.ScheduleEffect | packages/pyxis/src/data/Effect.ts:55-70 | a notification with an older epoch unlinks the edge and queues nothing; otherwise the one cached `$resolve` job is queued and the arena is untouched |
| Effect.ReadAtomSchedules | packages/pyxis/src/data/Effect.ts:55-70 | after a run, a notification from any atom it read queues exactly one job |
| Effect.StaleEdgeUnlinked | packages/pyxis/src/data/Effect.ts:55-61 | a stale edge's notification removes it from its atom's and lifecycle's lists and queues nothing |
| Effect.StaleUnlinkLosesAtom | packages/pyxis/src/data/Effect.ts:58-61 | after the lazy unlink the atom stays recorded, so a later read only refreshes the dead edge and the effect is never in that atom's list again |
| Effect.ScheduleEffectFixed | packages/pyxis/src/data/Effect.ts:55-70 | the corrected stale branch also drops the atom's entry from the dependency map; the live branch is unchanged |
| Effect.ScheduleFixedKeepsLive | packages/pyxis/src/data/Effect.ts:55-70 | with the corrected branch every recorded edge stays live across notifications |
| Effect.StaleUnlinkFixedRelinks | packages/pyxis/src/data/Effect.ts:55-61 | with the corrected branch a later read links a new edge that is back in the atom's list |
| Effect.DoubleDispose | packages/pyxis/src/data/Effect.ts:72-88 | as written, a run whose block throws leaves the already-called disposer in place, so it is called twice |
| Effect.DisposedOnce | packages/pyxis/src/data/Effect.ts:72-88 | with the disposer cleared before the block runs, each disposer is called exactly once, in order |
| Effect.TeardownCallback | packages/pyxis/src/data/Effect.ts:76-82 | the registered unmount callback is a plain callback bound to the effect |
| Effect.RunEffect | packages/pyxis/src/data/Effect.ts:72-83 | calls the held disposer, runs the block, keeps the disposer it returns (after a throw, none in the corrected build and the already-called one as written), and registers the teardown on the lifecycle the first time a disposer is held and never again |
| Effect.TeardownAfterRuns | packages/pyxis/src/data/Effect.ts:72-88 | after any sequence of runs, the unmount teardown calls exactly the disposer the last run left held, so the whole life calls the runs' disposers followed by that one, and a second teardown calls nothing |
| ProxyAtom.Get | packages/pyxis/src/data/ProxyAtom.ts:67-77 | a bound proxy reads its atom's value, a static one its own value |
| ProxyAtom.Set | packages/pyxis/src/data/ProxyAtom.ts:71-81 | a bound proxy forwards the write to its atom; a static one refuses |
| ProxyAtom.UnlinkIf | packages/pyxis/src/data/ProxyAtom.ts:40-42 | the old edge is unlinked exactly when `$dep` is set and the unlink is asked for |
| ProxyAtom.Rebind | packages/pyxis/src/data/ProxyAtom.ts:43-64 | after rebinding, reads give the new source's value, an atom is mirrored over the one reused edge, and subscribers are notified iff the value read changed |
| ProxyAtom.Use | packages/pyxis/src/data/ProxyAtom.ts:38-65 | as written `use` throws exactly when `$dep` holds an edge already unlinked; otherwise reads give the new value and notification happens iff the value changed |
| ProxyAtom.UseFixed | packages/pyxis/src/data/ProxyAtom.ts:38-65 | the corrected `use` unlinks only a bound proxy's edge and otherwise behaves the same |
| ProxyAtom.MakeProxy | packages/pyxis/src/data/ProxyAtom.ts:25-36 | `proxy(v)` starts static with no value and no edge, then uses `v`: it reads `v`, notifies iff `v` is not `undefined`, and holds an edge iff `v` is an atom |
| ProxyAtom.UseFixedKeeps | packages/pyxis/src/data/ProxyAtom.ts:38-65 | the corrected `use` never throws, keeps the arena well formed and reuses the one edge object |
| ProxyAtom.RebindAfterStaticThrows | packages/pyxis/src/data/ProxyAtom.ts:40-60 | as written, after rebinding from an atom to a static value every further `use` unlinks the dead edge again and throws |
| ProxyAtom.StaticToStaticThrows | packages/pyxis/src/data/ProxyAtom.ts:40-60 | atom, then static, then static again: the third `use` throws as written and succeeds corrected |
| ProxyAtom.UseAsWritten | packages/pyxis/src/data/ProxyAtom.ts:40-60 | the written `use` differs from the corrected one only on a static proxy that still holds its old edge, where it throws |
| ProxyAtom.UseFixedFrame | packages/pyxis/src/data/ProxyAtom.ts:38-65 | the corrected `use` touches no other edge and adds at most the fresh handle |
| Iterator.OnDeltaSound | packages/pyxis/src/component/Iterator.ts:67-177 | the new array has exactly `items.length + $lengthDelta` slots, all filled, and (proxy mode, the corrected build, or no leading `clear`) every old group is kept or unmounted exactly once |
| Iterator.PrepareSound | packages/pyxis/src/component/Iterator.ts:67-166 | after the scan and the pending fill, nothing is pending and the pool cursor `ri` has used the pool up without overrunning it |
| Iterator.OnDelta | packages/pyxis/src/component/Iterator.ts:67-177 | a negative new length is an error; on success nothing is pending, the new array is filled up to the new length, and the recycle pool is used up |
| Iterator.Prepare | packages/pyxis/src/component/Iterator.ts:67-166 | when the records apply, nothing is left pending and the pool cursor has passed the whole pool |
| Iterator.PoolSuffices | packages/pyxis/src/component/Iterator.ts:151-166 | when `$lengthDelta` matches the records, the pool holds a group for every pending insert |
| Iterator.PlanOrdered | packages/pyxis/src/component/Iterator.ts:86-88 | the old items the delta keeps appear in the new list in their old relative order |
| Iterator.OnDeltaPlaces | packages/pyxis/src/component/Iterator.ts:86-102 | every kept or changed old item ends at the position the delta gives it, with the group it had |
| Iterator.PreparePlaces | packages/pyxis/src/component/Iterator.ts:86-137 | before the final copy every copied or changed old group sits where the plan says |
| Iterator.ClearLeaks | packages/pyxis/src/component/Iterator.ts:139-147 | as written, in remount mode a `clear` leaves the old group neither kept nor unmounted; corrected, it is unmounted |
| Iterator.InitialRender | packages/pyxis/src/component/Iterator.ts:179-187 | one fresh group per item, mounted in list order before the iterator's anchor |
| Iterator.InitialRenderFits | packages/pyxis/src/component/Iterator.ts:179-187 | the initial groups are distinct and unmounted nothing, as `onDelta` needs |
| Iterator.GetAnchor | packages/pyxis/src/component/Iterator.ts:189-205 | the first node of the first group at or after `startIndex` that rendered nodes, else the fallback |
| IteratorProxy.CreateProxy | packages/pyxis/src/component/Iterator.ts:207-218 | one proxy per key mirroring the item's field, the arena kept well formed |
| IteratorProxy.UpdateProxy | packages/pyxis/src/component/Iterator.ts:220-230 | every listed key's proxy is rebound to the new item and `proxied` set; as written (distinct keys) it throws exactly when some proxy holds a stale edge, corrected it never throws |
| Show.React | packages/pyxis/src/component/Show.ts:50-60 | one reaction run mounts only when not shown and unmounts only when shown, ending with the flag equal to `shouldShow` |
| Show.AlternatesAppend | packages/pyxis/src/component/Show.ts:50-60 | mount/unmount alternation of a trace is that of its two halves |
| Show.ReactAllAlternates | packages/pyxis/src/component/Show.ts:50-60 | any number of runs alternate mounts and unmounts and keep the flag equal to the sub-group's state |
| Show.ShowStatic | packages/pyxis/src/component/Show.ts:38-42 | without atoms nothing is mounted; the result is the template's exactly when `when` holds and a template is given, and `null` exactly when `when` fails |
| Show.DynamicPlacement | packages/pyxis/src/component/Show.ts:62-70 | the anchor is returned iff nothing is shown; otherwise the content is mounted before `before` and the anchor after it |
| Show.ShowFixedAlternates | packages/pyxis/src/component/Show.ts:49-60 | with the flag initialised from `shouldShow`, every mount and unmount alternates from "not mounted" |
| Show.ShowUnmountsUnmounted | packages/pyxis/src/component/Show.ts:49 | as written, `when` with a nil template unmounts a sub-group that was never mounted |
| Show.ShowAsWrittenAgrees | packages/pyxis/src/component/Show.ts:49-51 | the written initial flag differs from the corrected one only for a holding `when` with a nil template |
| Position.CreatePosition | packages/rollup-plugin-pyxis/src/transpiler/position.ts:10-17 | a fresh cursor is valid and at offset 0 |
| Position.AdvanceNewLine | packages/rollup-plugin-pyxis/src/transpiler/position.ts:65-86 | throws unless at `"\n"` or `"\r\n"`; otherwise steps over it, adds one line and zeroes the column |
| Position.AdvanceNewLineValid | packages/rollup-plugin-pyxis/src/transpiler/position.ts:65-86 | stepping over a line break keeps line and column consistent with the offset |
| Position.AdvanceTo | packages/rollup-plugin-pyxis/src/transpiler/position.ts:25-63 | returns exactly the distance moved, never passes the end, does nothing when `to <= at`, keeps line/column consistent, with `stopAtEol` stops at the first line break, and takes a split `"\r\n"` whole |
| Position.PositionAt | packages/rollup-plugin-pyxis/src/transpiler/position.ts:19-23 | a fresh cursor advanced to `n`: valid, clamped to the end, or one past `n` when `n` splits a `"\r\n"` |
| Position.ValidBounds | packages/rollup-plugin-pyxis/src/transpiler/position.ts:40-55 | a valid cursor's line and column never exceed its offset |
| Sourcemap.DecodeAlphabet | packages/rollup-plugin-pyxis/src/transpiler/sourcemap.ts:6-11 | the decode table inverts the 64-character alphabet |
| Sourcemap.DecodeDigitInverse | packages/rollup-plugin-pyxis/src/transpiler/sourcemap.ts:6-11 | every character the decode table knows is the alphabet's digit for its value |
| Sourcemap.ZigZag | packages/rollup-plugin-pyxis/src/transpiler/sourcemap.ts:18-22 | the sign-in-bit-0 form is a 32-bit unsigned value |
| Sourcemap.EncodeVlqShape | packages/rollup-plugin-pyxis/src/transpiler/sourcemap.ts:18-35 | `encodeVLQ` is never empty, uses only the alphabet, sets the continuation bit on every digit but the last, and gives `"A"` for 0 |
| Sourcemap.EncodeVLQ | packages/rollup-plugin-pyxis/src/transpiler/sourcemap.ts:18-35 | never empty, and never starts with a segment or line delimiter |
| Sourcemap.ZigZagInverse | packages/rollup-plugin-pyxis/src/transpiler/sourcemap.ts:18-22 | the zig-zag step is undone for every value whose doubled magnitude fits 32 bits |
| Sourcemap.VlqRoundTrip | packages/rollup-plugin-pyxis/src/transpiler/sourcemap.ts:7-35 | decoding `encodeVLQ(v)` gives back `v` and stops right after it, for \|v\| < 2^31 |
| Sourcemap.VlqWraps | packages/rollup-plugin-pyxis/src/transpiler/sourcemap.ts:18-22 | past 31 bits the 32-bit shift wraps: 2^31 encodes as 0 |
| Sourcemap.RenderParses | packages/rollup-plugin-pyxis/src/transpiler/sourcemap.ts:64-73 | the text `addSegment`/`addLine` write parses back to the segments, four fields each with the source index second, lines split at `;` |
| SourcemapBuild.Changing | packages/rollup-plugin-pyxis/src/transpiler/sourcemap.ts:43-44 | exactly the edits with a nonzero delta are kept |
| SourcemapBuild.Sort | packages/rollup-plugin-pyxis/src/transpiler/sourcemap.ts:45 | the sort is a permutation into ascending `at` order |
| SourcemapBuild.SortedEditsAreChanging | packages/rollup-plugin-pyxis/src/transpiler/sourcemap.ts:43-45 | exactly the changing edits are walked, each as often as given |
| SourcemapBuild.Approach | packages/rollup-plugin-pyxis/src/transpiler/sourcemap.ts:83-98 | the start of a pass keeps the map in step; the transpiled cursor moves, without crossing a line break, to the target, to the end of the code or to the first line break before the target; on code without `"\r"` the original cursor moves the same distance whenever that stays inside the original |
| SourcemapBuild.InsertedCode | packages/rollup-plugin-pyxis/src/transpiler/sourcemap.ts:101-121 | over inserted code the transpiled cursor moves line by line to `limit`, with a `;` per line break, while the original cursor and the last segment's original values stay put; it cannot fail when `limit` lies inside the code, and on code without `"\r"` it stops exactly at `limit` |
| SourcemapBuild.ApplyEdit | packages/rollup-plugin-pyxis/src/transpiler/sourcemap.ts:100-131 | an edit reached either walks the inserted code or skips the removed original, keeping the map in step; an insertion that ends inside the code cannot fail and, without `"\r"`, moves the transpiled cursor by exactly the delta; a removal never fails and moves the original cursor to the removal's end, clamped to the code |
| SourcemapBuild.CrossLine | packages/rollup-plugin-pyxis/src/transpiler/sourcemap.ts:133-138 | with no edit on the line, `;` is written and both cursors cross their line break; it succeeds iff both cursors stand on a line break |
| SourcemapBuild.BuildStep | packages/rollup-plugin-pyxis/src/transpiler/sourcemap.ts:81-138 | one pass keeps the map in step and makes progress; on described codes it keeps the walk described, and it fails only in the as-written build, after the last edit, with no line break left before the end of the code |
| SourcemapBuild.WalkFrom | packages/rollup-plugin-pyxis/src/transpiler/sourcemap.ts:81-139 | from any described state, the rest of the loop always succeeds in the corrected build, and in the as-written one succeeds iff the transpiled text after the last edit is empty or ends in a line break |
| SourcemapBuild.Walkthrough | packages/rollup-plugin-pyxis/src/transpiler/sourcemap.ts:81-139 | the main loop runs to the end of the transpiled code keeping the map in step, or throws where a cursor is not at a line break; on described codes it throws, as written, exactly when the text after the last edit is non-empty and does not end in a line break |
| SourcemapBuild.Finish | packages/rollup-plugin-pyxis/src/transpiler/sourcemap.ts:81-141 | at the end the map has one line per transpiled line, each segment's offsets match, and it decodes to its segments |
| SourcemapBuild.BuildSourcemap | packages/rollup-plugin-pyxis/src/transpiler/sourcemap.ts:37-142 | `buildSourcemap`'s text is the tokens rendered with the source index, one line per transpiled line, and decodes back to them; the only failure is `advanceNewLine`'s; when the edits describe the two codes (`SourcemapBuild.Consistent`) the as-written build succeeds iff the transpiled text after the last edit is empty or ends in a line break, and the corrected build always succeeds |
| SourcemapBuild.TrailingTextThrows | packages/rollup-plugin-pyxis/src/transpiler/sourcemap.ts:133-137 | as written, `buildSourcemap("abc", "abc", [])` fails with `advanceNewLine`'s error |
| SourcemapBuild.TrailingTextMaps | packages/rollup-plugin-pyxis/src/transpiler/sourcemap.ts:81-139 | when the loop stops at the end of the code, the same call gives a map |
| SourceIndex.TakeValue | packages/rollup-plugin-pyxis/src/transpiler/sourcemap.ts:161-172 | `nextValue` splits off a prefix of the text and always makes progress |
| SourceIndex.EndOf | packages/rollup-plugin-pyxis/src/transpiler/sourcemap.ts:150-159 | `endOfSegmentOrLine` copies a `,` or `;`; as written the end of the text is not an end, corrected it is |
| SourceIndex.ReplaceChunks | packages/rollup-plugin-pyxis/src/transpiler/sourcemap.ts:144-192 | on a well-formed mapping, every segment's source index is replaced and nothing else changes, except that as written a trailing one-field segment gets the new index appended |
| SourceIndex.TrailingOneField | packages/rollup-plugin-pyxis/src/transpiler/sourcemap.ts:174-190 | as written `"A"` with index 0 becomes `"AA"`; corrected it stays `"A"` |
| SourceIndex.ReplaceRendered | packages/rollup-plugin-pyxis/src/transpiler/sourcemap.ts:64-192 | replacing the index of a map `buildSourcemap` wrote gives the map written with the new index |
| SourceIndex.ReplaceSourceIndex | packages/rollup-plugin-pyxis/src/transpiler/sourcemap.ts:144-192 | on every well-formed reading of the mapping, the result is that mapping with each segment's source index set to `encodeVLQ(newSourceIndex)`, plus, as written, one extra copy after a trailing one-field segment |
| Renderer.Leaves | packages/pyxis/src/Renderer.ts:93-110 | the leaves of nested arrays are never arrays |
| Renderer.LeavesAppend | packages/pyxis/src/Renderer.ts:93-110 | the leaves of a concatenation are the leaves of its parts |
| Renderer.InsertChildren | packages/pyxis/src/Renderer.ts:93-110 | inserts the leaves of nested arrays depth first, each once, under the root, without changing the caller's array |
| Renderer.SplitExtExact | packages/pyxis/src/Renderer.ts:52 | `RE_EXT` splits exactly the names with one inner colon, one way |
| Renderer.PropActionsExact | packages/pyxis/src/Renderer.ts:79-86 | the adapter sets exactly the props that do not split and are not `children`; an existing extension gets exactly the props that split with its prefix; a missing extension gets nothing |
| Renderer.PropActions | packages/pyxis/src/Renderer.ts:79-86 | at most one step per prop, each an adapter or extension set on the node |
| Renderer.Render | packages/pyxis/src/Renderer.ts:64-110 | a component is called with the props; a tag name creates the node, applies the props in order and then inserts the children's leaves, or one text per character of string children; it throws exactly when the children are neither an array nor a string |
| Native.SplitExtExact | packages/pyxis/src/component/Native.ts:6 | every name with a non-empty prefix before its first colon and a non-empty rest without line terminators splits there |
| Native.SplitAgrees | packages/pyxis/src/component/Native.ts:6 | the two `RE_EXT`s agree on every name the renderer's splits |
| Native.MoreColons | packages/pyxis/src/component/Native.ts:6 | `"a:b:c"` goes to extension `a` as `b:c` here and to the adapter in the renderer |
| Native.PropActionsExact | packages/pyxis/src/component/Native.ts:28-44 | an atom-valued plain prop is bound and never set, any other plain prop is set, `children` is neither, and an existing extension gets exactly the props split with its prefix |
| Native.PropActions | packages/pyxis/src/component/Native.ts:27-45 | at most one step per prop, none of them a create or an insert |
| Native.Render | packages/pyxis/src/component/Native.ts:12-48 | exactly: the node is created, then the prop steps of `Native.PropActions` in prop order, then one insert of the `children` prop before `before`; `children` is never set as a prop |
| JsxFactory.Children | packages/pyxis/src/jsx/factory.ts:23-32 | `undefined` becomes the shared empty array, an array is kept, anything else becomes a one-element array |
| JsxFactory.ChildrenVsWrap | packages/pyxis/src/jsx/factory.ts:23-32 | the normalisation is `wrap` except on `null`, which it wraps instead of dropping |
| JsxFactory.Attach | packages/pyxis/src/jsx/factory.ts:38-44 | a tag name gets the `Native` handler and its name recorded; a component is its own handler |
| JsxFactory.Jsx | packages/pyxis/src/jsx/factory.ts:18-47 | `children` is normalised, `key` is taken from the argument only when the prop is nullish, every other prop reads unchanged |
| JsxFactory.Jsxs | packages/pyxis/src/jsx/factory.ts:62-83 | only `key` may change; `children` is left as given |
| JsxFactory.SetSame | packages/pyxis/src/jsx/factory.ts:28-35 | assigning a property its own value changes nothing |
| JsxFactory.JsxAgrees | packages/pyxis/src/jsx/factory.ts:18-83 | with array children, `jsx` and `jsxs` build the same object |
| JsxFactory.JsxKeys | packages/pyxis/src/jsx/factory.ts:18-47 | with both `children` and `key` present the key order is kept; with both missing they are appended, `children` first |
| JsxRuntime.Children | packages/pyxis/src/jsx-runtime.ts:23-24 | `undefined` becomes the empty array; anything else, an array included, is wrapped in a one-element array |
| JsxRuntime.Prepare | packages/pyxis/src/jsx-runtime.ts:23-25 | the props handed to `render`: children wrapped, `key` defaulted, every other prop unchanged |
| JsxRuntime.SameLeaves | packages/pyxis/src/jsx-runtime.ts:23-24 | the extra wrapping inserts the same leaves as the factory's normalisation |
| JsxRuntime.Jsx | packages/pyxis/src/jsx-runtime.ts:18-28 | a component is called with the prepared props; a tag name always renders and inserts the children's leaves |
| JsxRuntime.Jsxs | packages/pyxis/src/jsx-runtime.ts:43-50 | only `key` is defaulted; a tag name renders iff the children are already an array or a string, inserting the array's leaves or one text per character |
| JsxRuntime.KeyReachesAdapter | packages/pyxis/src/jsx-runtime.ts:25-27 | `??=` always leaves an own `key`, so `key` is set on every native node, `undefined` included |
| StateRegistry.Preserve | packages/pyxis/src/dev/StateRegistry.ts:6-17 | does nothing for a missing handle or missing/empty id; otherwise stores the value under the pair and leaves every other handle alone |
| StateRegistry.Restore | packages/pyxis/src/dev/StateRegistry.ts:19-32 | the block is called iff a value is stored under that exact pair with handle and id present, and then with that value |
| StateRegistry.RestorePreserve | packages/pyxis/src/dev/StateRegistry.ts:6-32 | what was preserved is restored, `undefined` included, except under the id `__proto__` |
| StateRegistry.RestoreOther | packages/pyxis/src/dev/StateRegistry.ts:6-32 | preserving under one pair leaves what every other pair restores |
| StateRegistry.PreserveTwice | packages/pyxis/src/dev/StateRegistry.ts:11-16 | a later preserve under the same pair overwrites |
| StateRegistry.RestoreNothing | packages/pyxis/src/dev/StateRegistry.ts:19-32 | nothing is restored from an empty registry or with a missing handle or id |
| PressGesture.Create | packages/graph-editor/src/components/GraphEditor/gestures/PressGesture.ts:37-54 | each option given replaces its default (800 / 10 / 400); the gesture starts idle, with no pointer, no timer and zero multi-press time and count |
| PressGesture.SetState | packages/graph-editor/src/components/GraphEditor/gestures/PressGesture.ts:122-129 | every state change cancels the long-press timer and changes nothing else |
| PressGesture.CheckMultiPress | packages/graph-editor/src/components/GraphEditor/gestures/PressGesture.ts:131-141 | a gap over the delay resets the count; within it a release increments it and fires a multi-press from 2 on; the time always updates |
| PressGesture.Start | packages/graph-editor/src/components/GraphEditor/gestures/PressGesture.ts:77-96 | with a primary pointer it goes complex and refuses; otherwise it records the pointer, goes pending and arms the timer |
| PressGesture.Fire | packages/graph-editor/src/components/GraphEditor/gestures/PressGesture.ts:85-92 | the timer firing makes a long press and triggers `longPress` |
| PressGesture.Move | packages/graph-editor/src/components/GraphEditor/gestures/PressGesture.ts:98-107 | only the primary pointer moving too far changes the state, to moved-too-far |
| PressGesture.Stop | packages/graph-editor/src/components/GraphEditor/gestures/PressGesture.ts:109-120 | a non-primary pointer is ignored; otherwise a press fires iff pending and the gesture goes idle; as written the primary is kept |
| PressGesture.HandleTimer | packages/graph-editor/src/components/GraphEditor/gestures/PressGesture.ts:77-129 | the timer is armed only while a press is pending under a primary pointer |
| PressGesture.HandleCount | packages/graph-editor/src/components/GraphEditor/gestures/PressGesture.ts:77-141 | as written the multi-press count never exceeds one |
| PressGesture.NeverMultiPress | packages/graph-editor/src/components/GraphEditor/gestures/PressGesture.ts:77-141 | as written no sequence of events ever triggers `multiPress` |
| PressGesture.DoublePressOutcome | packages/graph-editor/src/components/GraphEditor/gestures/PressGesture.ts:77-141 | two quick presses: as written the second pointer is refused and one press is seen; corrected, two presses and a multi-press |
| PressGesture.StopReady | packages/graph-editor/src/components/GraphEditor/gestures/PressGesture.ts:77-120 | corrected, after the primary pointer is released the next pointer starts a pending press |
| PluginOptions.DefaultObject | packages/rollup-plugin-pyxis/src/options.ts:100-111 | `true` gives an empty object, an object itself, and `false`, `null`, a missing value or any other type nothing |
| PluginOptions.ResolveCss | packages/rollup-plugin-pyxis/src/options.ts:86-92 | each missing CSS-modules field takes its default: `/\.css$/i`, `/\.module\.css$/i`, `"cl"`, `{}`; `exclude` stays as given |
| PluginOptions.ResolveHmr | packages/rollup-plugin-pyxis/src/options.ts:93-96 | `include` defaults to `/\.m?[jt]sx?$/i`; `exclude` stays as given, `undefined` when missing |
| PluginOptions.Resolve | packages/rollup-plugin-pyxis/src/options.ts:81-98 | `pyxisModule` defaults to `"@calmdown/pyxis"`, and each feature is on exactly when given `true` or an object |
| PluginOptions.TrueIsEmpty | packages/rollup-plugin-pyxis/src/options.ts:81-111 | turning a feature on with `true` is passing an empty options object, and that gives every default |
| PluginOptions.ResolveIdempotent | packages/rollup-plugin-pyxis/src/options.ts:81-98 | resolved options resolve to themselves |
| PackageChecker.Dir | packages/rollup-plugin-pyxis/src/utils.ts:18 | the directory key is the name with every `/` replaced by `_` |
| PackageChecker.Find | packages/rollup-plugin-pyxis/src/utils.ts:27 | `indexOf` finds the first occurrence, or reports none |
| PackageChecker.CheckExact | packages/rollup-plugin-pyxis/src/utils.ts:17-30 | accepted iff the source is the name, starts with `name + "/"`, or the first `"/" + dir` is followed by `/`, `.` or `_` |
| PackageChecker.CheckSound | packages/rollup-plugin-pyxis/src/utils.ts:27 | a path accepted by position has some `"/" + dir` followed by a separator |
| PackageChecker.FirstOccurrenceOnly | packages/rollup-plugin-pyxis/src/utils.ts:27 | only the first occurrence is examined: `/ab/a/` is rejected for `a` though its later `/a/` would match |
| PackageChecker.Check | packages/rollup-plugin-pyxis/src/utils.ts:17-30 | the name itself and its sub-imports are accepted; anything else accepted contains `"/" + dir` |
| Plugin.LastIndex | packages/rollup-plugin-pyxis/src/transpiler/plugin.ts:83 | the last occurrence of a character, or none |
| Plugin.ExtNameShape | packages/rollup-plugin-pyxis/src/transpiler/plugin.ts:83 | the extension is the part of the last path component from its last dot |
| Plugin.ExtNameHidden | packages/rollup-plugin-pyxis/src/transpiler/plugin.ts:83 | a dot file and `..` have no extension |
| Plugin.ExtName | packages/rollup-plugin-pyxis/src/transpiler/plugin.ts:83 | the extension is empty or a dot followed by no `/` |
| Plugin.DetectExt | packages/rollup-plugin-pyxis/src/transpiler/plugin.ts:82-92 | a language iff the extension matches `.[cm]?tsx?` or `.[cm]?jsx?` ignoring case; the JSX flavour iff it ends in `x` (as written lower case only); TypeScript iff the `t` pattern matched |
| Plugin.DetectExamples | packages/rollup-plugin-pyxis/src/transpiler/plugin.ts:82-92 | `.ts`, `.mts`, `.tsx`, `.cjs`, `.jsx`, `.JS` are recognised; `.json`, `.tsxx` and no extension are not |
| Plugin.UpperCaseX | packages/rollup-plugin-pyxis/src/transpiler/plugin.ts:84-88 | as written `Foo.TSX` is parsed as plain TypeScript; corrected as TSX |
| Plugin.DetectCorrected | packages/rollup-plugin-pyxis/src/transpiler/plugin.ts:82-92 | the corrected detection is the written one on the lower-cased extension |
| Plugin.LowercaseAgrees | packages/rollup-plugin-pyxis/src/transpiler/plugin.ts:82-92 | without an upper-case `X` the two agree |
| Plugin.DetectLang | packages/rollup-plugin-pyxis/src/transpiler/plugin.ts:82-92 | no extension gives null; a language iff the extension matches a TypeScript or JavaScript pattern; the JSX flavour iff it ends in `x` as the build reads it |
| Plugin.Handle | packages/rollup-plugin-pyxis/src/transpiler/plugin.ts:40-77 | null iff the module is outside the root, in an unknown language, or untransformed; otherwise the transpiled code with a version-3 map of the one source |
| TranspilerUtils.AddImport | packages/pyxis-transpiler/src/utils.ts:26-28 | the name is recorded as a value import whatever it was, other names untouched |
| TranspilerUtils.AddTypeImport | packages/pyxis-transpiler/src/utils.ts:30-37 | a recorded name is left alone; a new one is type-only |
| TranspilerUtils.ImportsOrder | packages/pyxis-transpiler/src/utils.ts:26-37 | a value import is never downgraded, in either order; a type import twice is once; imports of different names commute |
| TranspilerUtils.GetCode | packages/pyxis-transpiler/src/utils.ts:20-24 | a snippet gives its source; a string itself; a number its decimal text, which reads back; an unmarked object `[object Object]` |
| TranspilerUtils.SnippetCode | packages/pyxis-transpiler/src/utils.ts:13-24 | `getCode(snippet(s))` is `s` |
| TranspilerUtils.DecimalRoundTrip | packages/pyxis-transpiler/src/utils.ts:50 | an integer's decimal text reads back as the integer |
| TranspilerUtils.WarningInjective | packages/pyxis-transpiler/src/utils.ts:49-51 | `[CODE] message at line:col` determines code, message, line and column |
| JsxChildren.ConvertTextOfShape | packages/pyxis-transpiler/src/transpiler/convertJsxChildren.ts:141-147 | text of the shape white space, core, white space (core from a non-space to a non-space, no line break inside) converts to its core |
| JsxChildren.ConvertTextShape | packages/pyxis-transpiler/src/transpiler/convertJsxChildren.ts:141-147 | every text that converts has that shape, and converts to its core |
| JsxChildren.MultiLineDropped | packages/pyxis-transpiler/src/transpiler/convertJsxChildren.ts:141 | text whose non-space parts are split by a line break is dropped, not trimmed |
| JsxChildren.ConvertAttrs | packages/pyxis-transpiler/src/transpiler/convertJsxChildren.ts:60-77 | each attribute is a prop, an extension prop or an unsupported-syntax warning about spreads |
| JsxChildren.ConvertAttrsAppend | packages/pyxis-transpiler/src/transpiler/convertJsxChildren.ts:60-77 | props, extensions and warnings each keep the attributes' order |
| JsxChildren.ConvertAttrsProps | packages/pyxis-transpiler/src/transpiler/convertJsxChildren.ts:66-71 | a plain attribute is a prop exactly when it is in the list |
| JsxChildren.TagFields | packages/pyxis-transpiler/src/transpiler/convertJsxChildren.ts:88-126 | the handler is `Native` iff the tag is namespaced or a native identifier, with `t` (and `n`) set; any other tag's handler is its text |
| JsxChildren.ChildrenExtends | packages/pyxis-transpiler/src/transpiler/convertJsxChildren.ts:18-139 | converting children only adds imports, never downgrades a value import, and only appends warnings |
| JsxChildren.NativeImportedAll | packages/pyxis-transpiler/src/transpiler/convertJsxChildren.ts:18-139 | a host element among the children makes `Native` a value import; without one, `Native` is imported afterwards only if it was before |
| JsxChildren.TextChildren | packages/pyxis-transpiler/src/transpiler/convertJsxChildren.ts:18-35 | text children convert to their trimmed texts in order, blank and multi-line ones skipped |
| JsxChildren.ConvertText | packages/pyxis-transpiler/src/transpiler/convertJsxChildren.ts:141-147 | a converted text is non-empty, starts and ends with a non-space and has no line break inside; blank text converts to nothing |
| JsxChildren.ConvertChild | packages/pyxis-transpiler/src/transpiler/convertJsxChildren.ts:32-50 | text converts as `convertJsxText` does, an expression as its converted form, an element or fragment to a template, and any other kind to null, text and expressions leaving the context alone |
| JsxChildren.ConvertChildren | packages/pyxis-transpiler/src/transpiler/convertJsxChildren.ts:18-30 | at most one output per child, skipped children leaving no entry |

## Left out

- I/O and host services. The DOM adapter, timers, `performance.now()`, `setTimeout`, the scheduler tick and the file system are parameters or events.
- `Atom.ts`, `Scheduler.ts`, `List.ts`, `ListDelta.ts` and `Reaction.ts` are not part of this model.
  - Atoms are ids with a value map.
  - The scheduler queue is a list of jobs.
  - A reaction runs its block once when it is created, then once per change.
  - A list delta is a sequence of records that is valid for the list.
- `Dependency.ts` is not part of this model. Its `link` and `unlink` are `Dependency.Link` and `Dependency.Unlink`. `Dependency.Unlink` is reconstructed as the atom-list splice written out in `notifyUnmounted` (Lifecycle.ts:174-201) plus the same splice on the owner list. `notifyUnmounted` never splices the owner list; it walks all of it and nulls each edge's owner and owner-list pointers. The throw on a dead edge is inferred by analogy, from the read of the nulled target's `$dh` in the inline splice.
- Nested effects. `resolve` nulls the current effect instead of restoring an outer one. The model treats effect blocks as not nesting.
- Exceptions end the modelled operation with `Err`. Partial effects on the values a throwing block had already touched are not modelled beyond that.
- The ordering of `for..in` over integer-like keys is not modelled: props iterate in insertion order, and JavaScript lists integer-like keys first.
- Floating point. Numbers are integers, `Infinity` and `NaN` do not occur, and `"" + n` is modelled for integers only.
- `Array.prototype.sort` stability. The edits are sorted by a stable insertion sort, and `buildSourcemap`'s result does not depend on the order of equal offsets.
- JSON quoting, indentation and the exact text of transpiled templates. `JsxChildren` returns the template's structure.
- The internals of `convertJsxExpression` and `convertJsxInitializer`: their results are inputs, and any imports or warnings they add are not modelled.
- `getShortModuleId`, `isPathWithin` and the transpiler routine are inputs of `Plugin.Handle`. `path.extname` is modelled for POSIX separators only.
- The insertion order of the transpiler's import map: imports are a map from name to type-only flag.
- The CSS-modules and HMR plugin wiring, the DOM extensions and components, the graph editor's geometry, and the type-level files.
- Ghost list views in `Dependency` and `Iterator` are proof devices; the source has no such fields.
- `Sourcemap.EncodeVLQ`: `buildSourcemap` encodes the source index once and reuses the text; the model encodes it once per segment, which gives the same text.
- `Sourcemap.VlqRoundTrip`: proved only for values whose doubled magnitude fits 32 bits, because `<<` works on 32 bits and larger values wrap (`Sourcemap.VlqWraps`).
- `PluginOptions.ResolveHmr`: `exclude` defaults to `undefined`, as the code does, though its doc comment says `[]`.
- `StateRegistry.Preserve`: an id of `__proto__` sets the object's prototype instead of an own property; the model leaves the state unchanged, so nothing is restored under that id.
- `IteratorProxy.CreateProxy`: with duplicate keys the later proxy replaces the earlier one; the earlier proxy's edge stays linked and is not tracked further.
- `Callbacks.Drain`: the list being drained is fixed when the drain starts, so a callback that registers another callback on the same list during the drain is not modelled. In `notifyMounted` (Lifecycle.ts:150-156) such a registration runs in the same drain when an earlier callback makes it. It is lost when the current tail makes it, because `$mn` was read before the call, `callback.$mn = null` then drops the new link, and the `finally` clears the head and tail. `Lifecycle.NotifyMounted` and `Context.ContextMounted` inherit this.
- `Renderer.Render`: `getContext()` (Renderer.ts:72) throws in a development build when no renderer context is current; the model takes the adapter's extensions as a parameter and does not model that throw.
- `TranspilerUtils.GetCode`: a number's text is its plain decimal digits, which is what JavaScript's `"" + n` gives only for |n| < 10^21; at and above that JavaScript writes the exponent form (`1e+21`), which is not modelled.
- Prototype and flag keys. Proxy keys are integers in `IteratorProxy`, so a key named `proxied` that collides with the `proxied` flag (Iterator.ts:208, 229) cannot arise. Extension sets have no prototype keys in `Renderer` and `Native`, so a name such as `constructor:x` cannot reach a prototype member and throw as it can at Renderer.ts:82.
- Strings are sequences of Unicode code points, while JavaScript strings are sequences of UTF-16 code units. A character outside the Basic Multilingual Plane is two code units in the source and one character here, so lengths, offsets and columns differ for such text: in `"😀x"` the source puts `x` at column 2 and the model at column 1. A lone surrogate cannot be written at all.
- `Position.AdvanceTo`: offsets and columns count code points, not UTF-16 code units; outside the Basic Multilingual Plane they are smaller than the source's.
- `Position.PositionAt`: the same as `Position.AdvanceTo`, for offsets and columns.
- `SourcemapBuild.BuildSourcemap`: columns and offsets count code points, as for `Position.AdvanceTo`. The success condition is proved only for codes without `"\r"` whose sorted, changing edits describe the transpiled code from the original (`SourcemapBuild.Consistent`); for other inputs the model states the error message and the shape of the map, not when the build succeeds.
- `Renderer.Render`: string children give one text per code point; Renderer.ts:99-109 indexes the string by UTF-16 code units, so a surrogate pair gives two texts there and one here.
- `JsxRuntime.Jsxs`: inherits the code point split of `Renderer.Render`.
- Arrays that contain themselves. The children loop at Renderer.ts:99-109 splices a nested array in place and never ends on an array that contains itself; the model's `Value` type is inductive, so such a value cannot be built.
- `PressGesture.Start`: the pointer is compared by identity, modelled as a number; a pointer object reused across presses is the same number.

## Findings

| source | as written | input that shows it | evidently intended | confidence | as-written member | corrected member |
|---|---|---|---|---|---|---|
| packages/pyxis/src/data/Context.ts:118-120 | the `finally` of `withContext` sets the current context to `null` | `withContext(1, () => { withContext(2, …); getContext(); })` reads `null` | restore the previous context, as `withLifecycle` does | high, not executed | Context.WithContextLosesOuter | Context.WithContextRestoringScoped |
| packages/pyxis/src/data/Effect.ts:58-61 | a stale notification unlinks the edge but leaves it in `$deps` | an atom read in run 1, skipped in run 2, notifying, then read in run 3: the effect never hears it again | drop the atom's entry when unlinking | medium, not executed | Effect.StaleUnlinkLosesAtom | Effect.StaleUnlinkFixedRelinks |
| packages/pyxis/src/data/Effect.ts:73-74 | the old disposer stays in `$dispose` while the block runs | a block returning a disposer, then a run that throws: the disposer is called twice | clear `$dispose` once it was called | medium, not executed | Effect.DoubleDispose | Effect.DisposedOnce |
| packages/pyxis/src/data/ProxyAtom.ts:40-42 | `unlink($dep)` runs whenever `$dep` is set | `proxy(atom)`, then `use(1)`, then `use(2)`: the third call unlinks a dead edge | unlink only while bound to an atom | medium, not executed | ProxyAtom.StaticToStaticThrows | ProxyAtom.UseFixedKeeps |
| packages/pyxis/src/component/Iterator.ts:139-147 | a `clear` record does nothing in remount mode | a remount iterator over one item receiving `clear`: its group is neither kept nor unmounted | unmount the old groups | medium, not executed | Iterator.ClearLeaks | Iterator.OnDeltaSound |
| packages/pyxis/src/component/Show.ts:49 | `isShown` starts as `when`, ignoring a nil template | `when` true and no template: the first reaction run unmounts a sub-group never mounted | start from `shouldShow` | medium, not executed | Show.ShowUnmountsUnmounted | Show.ShowFixedAlternates |
| packages/rollup-plugin-pyxis/src/transpiler/sourcemap.ts:150-159 | the end of the text does not end a segment | `replaceSourceIndex("A", 0)` gives `"AA"` | a one-field segment at the end stays as it is | high, not executed | SourceIndex.TrailingOneField | SourceIndex.ReplaceChunks |
| packages/graph-editor/src/components/GraphEditor/gestures/PressGesture.ts:109-120 | `stop` never clears `primary` | press and release pointer 1, then pointer 2 on the same gesture object: the second start is refused, no second press, no multi-press. EditorView.tsx:102 and 123 drop the gesture once the last pointer lifts, so this needs `beginGesture` to hand back the same object | forget the primary pointer on release | low, not executed | PressGesture.NeverMultiPress | PressGesture.StopReady |
| packages/rollup-plugin-pyxis/src/transpiler/sourcemap.ts:133-137 | after the last edit the loop looks for a line break even at the end of the code | `buildSourcemap("abc", "abc", [])` throws "invalid state: not at a newline" | stop at the end of the code | medium, not executed | SourcemapBuild.TrailingTextThrows | SourcemapBuild.TrailingTextMaps |
| packages/rollup-plugin-pyxis/src/transpiler/plugin.ts:84-88 | the extension test ignores case but `endsWith("x")` does not | `Foo.TSX` is parsed as plain TypeScript | `.TSX` parsed as TSX | medium, not executed | Plugin.UpperCaseX | Plugin.DetectCorrected |
