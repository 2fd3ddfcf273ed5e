# PySpine core, modelled in Dafny

PySpine is a family of pygame editors for 2D skeletal animation, with two playback loaders, one in pygame and one in SDL3. It has:

- a sprite-sheet editor, which cuts rectangles out of an image;
- a bone editor;
- a sprite attachment editor, which pins sprite instances to bones;
- a keyframe animation editor;
- a "boneless" scene editor and animator, in which sprite instances are parented directly to one another.

This project models the logic under the drawing and event code. It covers the undo histories, the reversible edit commands, the keyframe tracks and playback clocks, the hierarchy rules, selection cycling, name allocation, the sprite-rectangle editing rules, and the file and viewport helpers. Each module proves the properties the editors rely on.

One Dafny module per component:

- `Types`: the records and enumerations of `data_classes.py`, plus Python's truncating `int()` and floor `%` written out.
- `UndoRedo`: the history `UndoRedoManager`. It is a class over an abstract state and command type, and its `execute`/`undo` functions are parameters. It has a bounded undo stack (50), a redo stack, enable/disable, and multi-step undo and redo. `GenericCommands` has the reusable dictionary, list, snapshot and composite commands.
- `UniversalEditor`: the record-based history of `boneless_core_base.py`. Create, modify, delete and rename records apply to `data_objects`. The module also covers selection lists, click cycling and `get_next_object_name`.
- `BoneCommands`, `SpriteCommands`, `AnimationCommands`: the edit commands. Each one's `execute` and `undo` are functions, or methods of a store class, with round-trip lemmas.
- `KeyframeOrder`, `Easing`, `BoneTrack`, `BonelessTrack`: the tracks.
  - Tracks use time-ordered insertion and tolerance lookups.
  - Evaluation clamps outside the keyframe range and eases between the enclosing pair: cubic, quadratic and CONSTANT curves.
  - Evaluation stays within the two keyframes' values.
- `AnimationEditor`, `BonelessAnimator`: playback clocks (loop, clamp, `int()` truncation) and keyframe recording while dragging.
- `BoneHierarchy`, `BoneQueries`, `BoneEditor`, `LegacyBoneEditor`: parent chains, the descendant test, hierarchy-panel drops, hit lists and draw order, layer cycling, and the bone editors' handlers.
- `Scene`: the boneless scene forest. Re-parenting refuses cycles, `children` lists mirror `parent_id` links, and deletion orphans children. Every change is also recorded in the `UniversalEditor` history.
- `AttachmentEditor`, `LegacyAttachmentEditor`: sprite instances attached to bones, instance ids, selection cycling, rotation and hierarchy drops.
- `SpriteRectRules`, `SpriteSheetEditor`, `LegacySpriteSheetEditor`, `BonelessSpriteEditor`: hit priority, handle priority, resize with minimum size 5 and clamping to the sheet, the origin clamped to [0, 1], and each editor's creation, deletion and clearing under its history.
- `Names`: decimal digits and the two name-allocation loops.
- `PygameLoader`, `SdlLoader`: the runtime loaders' playback and the parent-before-child world-transform pass.
- `FileCommon`, `Viewport`: bone record serialisation round trip, enum encoding, and screen/world conversion with zoom about the cursor.

The repository contains near-identical copies of several files:

- `old_pyspine/undo_redo_common.py`, `old_pyspine/sprite_commands.py`, `old_pyspine/file_common.py`, `old_pyspine/data_classes.py` and `old_pyspine/PySpine_SpriteAttachmentEditor.py` are the same code as their namesakes under `pyspine/`.
- The GUI variants `pyspine/Editor_SpriteSheet.py` and `pyspine/old_pyspine/Editor_BoneSheet.py` differ from `PySpine_SpriteSheetEditor.py` and `PySpine_BoneEditor.py` only in widget and layout code.

One model serves each such pair, and the table cites one file of the pair. Where copies do diverge, each variant has its own member:

- cubic versus quadratic easing;
- `int()` truncation of times;
- the SDL3 track's fallback to its last keyframe;
- `UniversalEditor.redo` dropping the rest of the redo stack.

Trigonometry is never computed. Wherever a result needs a cosine, a sine, a square root or `atan2`, that value is a parameter supplied by the caller:

- a bone's END point;
- the placement of a child bone;
- a distance hit test;
- the length and angle of a drag.

Elapsed time is a parameter as well: `dt` or the wall-clock reading `now`. Dictionaries whose iteration order matters carry that order as a sequence of keys.

## Model

| member | source | states |
|---|---|---|
| Types.NextLayer | pyspine/PySpine_BoneEditor.py:276-281 | the cycled layer always differs from the current one |
| Types.NextLayerPeriod | pyspine/PySpine_BoneEditor.py:276-281 | three cycles return to the start, two never do, and the cycle visits all three layers |
| Types.PyMod | pyspine/PySpine_SpriteAttachmentEditor.py:674 | Python's `% 360` on a float lands in [0, 360) and differs from the operand by a whole number of turns |
| Types.FloorQuotient | pyspine/PySpine_SpriteAttachmentEditor.py:674 | the floored multiple of the divisor lies in (x - d, x] and is 0 for 0 <= x < d |
| Names.ParseNat | pyspine/PySpine_BoneEditor.py:846-850 | the number part parses exactly when it is a non-empty run of ASCII digits; otherwise the `ValueError` path skips the key |
| Names.ParseDigits | pyspine/PySpine_BoneEditor.py:864 | a generated name's number part reads back as the number it was made from |
| Names.DigitsInjective | pyspine/PySpine_BoneEditor.py:864 | different numbers never give the same name |
| Names.SuffixOfAllocated | pyspine/PySpine_BoneEditor.py:844-848 | the suffix of `base + str(k)` after `base` is k |
| Names.SortNats | pyspine/PySpine_BoneEditor.py:855 | the collected numbers come out sorted and as a permutation of the input |
| Names.FirstGap | pyspine/PySpine_BoneEditor.py:856-862 | the walk stops at a positive number absent from the list, and every smaller positive number is present |
| Names.NextFreeName | pyspine/boneless_core_base.py:566-599 | the name is base plus the smallest positive suffix no key carries, so it is never an existing key (the same rule as `_get_next_bone_name`, PySpine_BoneEditor.py:838-864, and `_get_next_sprite_name`) |
| Names.FirstFreeCounter | pyspine/old_pyspine/NewEditor_SpriteSheet.py:792-798 | the name is prefix + str(n) for the first n from 1 that is not a key; every earlier candidate is a key |
| UndoRedo.FromTopIsReversedInOrder | pyspine/undo_redo_common.py:242-245 | applying commands from the last to the first is applying the reversed list in order |
| UndoRedo.ReverseReverse | pyspine/undo_redo_common.py:244 | reversing twice gives the list back |
| UndoRedo.CompositeUndoInvertsExecute | pyspine/undo_redo_common.py:231-245 | when each child's undo inverts its execute, a composite's reverse-order undo inverts its in-order execute |
| UndoRedo.ApplyFromTopSplit | pyspine/undo_redo_common.py:242-245 | undoing from the top handles the tail before the head |
| UndoRedo.RedoAfterUndoRestores | pyspine/undo_redo_common.py:57-85 | redoing the block that undo moved gives back the state before the undo |
| UndoRedo.InOrderInvertsFromTop | pyspine/undo_redo_common.py:238-245 | executing in order after undoing from the top restores the state |
| UndoRedo.Trim | pyspine/undo_redo_common.py:51-53 | the single `pop(0)` keeps a suffix one shorter at most, and leaves the stack within the limit when it was at most one over |
| UndoRedo.UndoRedoManager.constructor | pyspine/undo_redo_common.py:30-34 | empty stacks, tracking enabled, the given history limit (50 by default) |
| UndoRedo.UndoRedoManager.ExecuteCommand | pyspine/undo_redo_common.py:36-55 | the command always runs; when enabled it is pushed, the redo stack is emptied and the oldest entry dropped beyond the limit; when disabled both stacks are untouched |
| UndoRedo.UndoRedoManager.Undo | pyspine/undo_redo_common.py:57-70 | false and no change when nothing can be undone or count <= 0; otherwise the top min(count, len) commands are undone from the top and moved to the redo stack in pop order |
| UndoRedo.UndoRedoManager.StepFromTop | pyspine/undo_redo_common.py:63-66 | one more popped command extends the undone suffix and the reversed list moved to redo |
| UndoRedo.UndoRedoManager.Redo | pyspine/undo_redo_common.py:72-85 | mirrors Undo: the top min(count, len) redo commands are re-executed and moved back, with no history limit |
| UndoRedo.UndoRedoManager.StepRedo | pyspine/undo_redo_common.py:78-81 | one more popped command extends the redone suffix |
| UndoRedo.UndoRedoManager.RecordPerformed | pyspine/PySpine_SpriteSheetEditor.py:234-235 | the command is appended and the redo stack emptied; the state, already changed by the drag, is untouched |
| UndoRedo.UndoRedoManager.CanUndo | pyspine/undo_redo_common.py:87-89 | true exactly when the undo stack is non-empty |
| UndoRedo.UndoRedoManager.CanRedo | pyspine/undo_redo_common.py:91-93 | true exactly when the redo stack is non-empty |
| UndoRedo.UndoRedoManager.Clear | pyspine/undo_redo_common.py:95-99 | both stacks empty |
| UndoRedo.UndoRedoManager.UndoList | pyspine/undo_redo_common.py:101-103 | the undo stack listed most recent first: its reversal is the stack |
| UndoRedo.UndoRedoManager.RedoList | pyspine/undo_redo_common.py:105-107 | the redo stack listed most recent first |
| UndoRedo.UndoRedoManager.Disable | pyspine/undo_redo_common.py:109-111 | tracking is off |
| UndoRedo.UndoRedoManager.Enable | pyspine/undo_redo_common.py:113-115 | tracking is on |
| GenericCommands.SnapshotRoundTrip | pyspine/undo_redo_common.py:121-136 | a snapshot taken from the attribute undoes back to it, and redo after undo gives the new state again |
| GenericCommands.DictExecute | pyspine/undo_redo_common.py:150-151 | add and modify store their value, remove deletes the key; other keys are unchanged |
| GenericCommands.DictUndo | pyspine/undo_redo_common.py:153-157 | modify restores the old value; add and remove restore the entry recorded at construction, deleting it if there was none (the key must still be there for that `del`); other keys are unchanged |
| GenericCommands.DictAddRoundTrip | pyspine/undo_redo_common.py:139-157 | `DictAddCommand` execute then undo gives back the dictionary, whether or not the key existed |
| GenericCommands.DictRemoveRoundTrip | pyspine/undo_redo_common.py:160-176 | `DictRemoveCommand` execute then undo gives back the dictionary, whether or not the key existed |
| GenericCommands.DictModifyRoundTrip | pyspine/undo_redo_common.py:179-193 | a `DictModifyCommand` whose old value is the current entry undoes to the dictionary |
| GenericCommands.DictRedoAfterUndo | pyspine/undo_redo_common.py:150-193 | for every dictionary command, execute after undo reproduces the first execute |
| GenericCommands.NewListAdd | pyspine/undo_redo_common.py:199-203 | a missing index becomes the list length |
| GenericCommands.NewListRemove | pyspine/undo_redo_common.py:216-220 | the removed item is recorded exactly when the index is valid |
| GenericCommands.ListExecute | pyspine/undo_redo_common.py:205-206 | an add puts the item at the position `list.insert` picks (a negative index counts from the end, a large one appends) and shifts the rest up by one; a remove with a valid index drops exactly that element, and with an invalid one keeps the list |
| GenericCommands.ListUndo | pyspine/undo_redo_common.py:208-228 | an add's undo drops exactly the element at a valid index and otherwise keeps the list; a remove's undo puts a recorded item back at the position `list.insert` picks, and without one keeps the list |
| GenericCommands.ListAddRoundTrip | pyspine/undo_redo_common.py:196-210 | with 0 <= index <= len, execute then undo restores the list |
| GenericCommands.ListAddPastEndIsNotUndone | pyspine/undo_redo_common.py:205-210 | with an index past the end, insert appends but undo leaves the item in the list |
| GenericCommands.ListRemoveRoundTrip | pyspine/undo_redo_common.py:213-228 | with a valid index, execute then undo restores the list |
| GenericCommands.ListRemoveInvalidIsNoOp | pyspine/undo_redo_common.py:222-228 | with an invalid index both directions leave the list alone |
| Easing.EaseCubicInUnit | pyspine/PySpine_AnimationEditor.py:101-112 | every cubic-family easing (ease in, ease out, ease in-out, bezier, linear) maps [0,1] into [0,1] |
| Easing.EaseQuadraticInUnit | example_loaders/sdl3/main.cpp:206-221 | every quadratic-family easing of the SDL3 loader maps [0,1] into [0,1] |
| Easing.CubicEndpoints | pyspine/PySpine_AnimationEditor.py:101-112 | every cubic easing fixes 0 and 1 |
| Easing.QuadraticEndpoints | example_loaders/sdl3/main.cpp:206-221 | every quadratic easing fixes 0 and 1 |
| Easing.QuadraticDiffersFromCubic | example_loaders/sdl3/main.cpp:207-208 | the SDL3 ease-in (t squared) and the editors' ease-in (t cubed) disagree at t = 0.5 |
| Easing.LerpEnds | pyspine/PySpine_AnimationEditor.py:115-120 | the channel blend gives the first value at 0 and the second at 1 |
| Easing.LerpBetween | pyspine/PySpine_AnimationEditor.py:115-120 | with a factor in [0,1] the blend lies between its two ends |
| Easing.RatioInUnit | pyspine/PySpine_AnimationEditor.py:77-78 | the segment parameter of a bracketing pair with distinct times lies in [0,1] |
| KeyframeOrder.FirstLater | pyspine/PySpine_AnimationEditor.py:54-60 | the insertion point: every earlier keyframe is at or before the new time, the one there is strictly later |
| KeyframeOrder.FirstLaterAt | pyspine/PySpine_AnimationEditor.py:54-60 | those two facts fix the insertion point |
| KeyframeOrder.InsertBy | pyspine/PySpine_AnimationEditor.py:51-60 | one keyframe more, and the list is the old one plus the new keyframe as a multiset |
| KeyframeOrder.InsertByKeepsOrder | pyspine/PySpine_AnimationEditor.py:51-60 | inserting into a time-ordered list keeps it ordered, after every equal time and before every later one |
| KeyframeOrder.InsertByThenRemove | pyspine/PySpine_AnimationEditor.py:56-60 | removing the inserted keyframe gives back the old list |
| KeyframeOrder.SortBy | pyspine/PySpine_AnimationEditor.py:668 | `sort(key=time)` gives a permutation of the list |
| KeyframeOrder.SortBySorted | pyspine/PySpine_AnimationEditor.py:668 | the sorted list is in time order |
| KeyframeOrder.SortByIdentityOnSorted | pyspine/PySpine_AnimationEditor.py:668 | the sort is stable: an ordered list is left exactly as it is |
| KeyframeOrder.FirstBracket | pyspine/PySpine_AnimationEditor.py:73-79 | the first consecutive pair whose times enclose the time, and no earlier pair does; None only when no pair does |
| KeyframeOrder.BracketFromBelow | pyspine/PySpine_AnimationEditor.py:66-79 | strictly between the first and last keyframe times the scan always finds a pair, and its two times differ, so the division never divides by zero |
| KeyframeOrder.FirstMatch | pyspine/PySpine_AnimationEditor.py:800-803 | the first keyframe satisfying the test, with none before it; None when none does |
| KeyframeOrder.FirstMatchAt | pyspine/PySpine_AnimationEditor.py:800-803 | a satisfying index with no earlier satisfying one is the one found |
| BoneTrack.BlendBetween | pyspine/PySpine_AnimationEditor.py:99-120 | with t in [0,1] the eased blend lies between the two transforms on every channel, and equals the first at 0 and the second at 1 |
| BoneTrack.EvaluateClamps | pyspine/PySpine_AnimationEditor.py:62-70 | an empty track gives the identity transform; at or before the first keyframe the first transform; at or after the last the last one |
| BoneTrack.EvaluateInterior | pyspine/PySpine_AnimationEditor.py:72-81 | strictly inside the range the result is the blend of a consecutive enclosing pair with distinct times, between their transforms; the fallback is never reached |
| BoneTrack.LastSpriteBefore | pyspine/PySpine_AnimationEditor.py:89-94 | any id found is non-empty |
| BoneTrack.LastSpriteBeforeSpec | pyspine/PySpine_AnimationEditor.py:88-96 | an id is found exactly when one of the scanned keyframes has one, and it is the id of the last such keyframe |
| BoneTrack.SetOrAddResult | pyspine/PySpine_AnimationEditor.py:798-817 | the first keyframe within 0.01 of the time carries the new transform; a keyframe is added exactly when none was near; time order is kept |
| BoneTrack.UpdateNear | pyspine/PySpine_AnimationEditor.py:807-809 | updating the near keyframe in place leaves it the first near one |
| BoneTrack.AddNear | pyspine/PySpine_AnimationEditor.py:810-817 | with none near, the inserted keyframe becomes the first near one |
| BoneTrack.BoneAnimationTrack.constructor | pyspine/PySpine_AnimationEditor.py:46-49 | an empty track with no selected keyframe |
| BoneTrack.BoneAnimationTrack.AddKeyframe | pyspine/PySpine_AnimationEditor.py:51-60 | the keyframe list becomes the ordered insertion of the new keyframe |
| BoneTrack.BoneAnimationTrack.GetTransformAtTime | pyspine/PySpine_AnimationEditor.py:62-81 | the loop returns the track's evaluation at the time |
| BoneTrack.BoneAnimationTrack.GetSpriteAtTime | pyspine/PySpine_AnimationEditor.py:83-96 | the last non-empty sprite id among the keyframes before the first later one |
| BoneTrack.BoneAnimationTrack.CreateOrUpdateKeyframe | pyspine/PySpine_AnimationEditor.py:796-817 | the near keyframe is updated, or a new one inserted in time order |
| BoneTrack.BoneAnimationTrack.DragSelectedKeyframe | pyspine/PySpine_AnimationEditor.py:664-668 | a valid selection's keyframe gets the new time and the list is stably re-sorted; an invalid selection changes nothing; the selection index is left as it was |
| BoneTrack.DragKeepsOrder | pyspine/PySpine_AnimationEditor.py:666-668 | after a drag the track is time-ordered and holds the same keyframes, the dragged one with its new time |
| AnimationCommands.NewDeleteKeyframe | pyspine/animation_commands.py:29-34 | the keyframe is snapshotted exactly when the index is valid |
| AnimationCommands.NewModifyKeyframe | pyspine/animation_commands.py:48-59 | an omitted time or interpolation defaults to the keyframe's current one |
| AnimationCommands.AddKeyframeUndoRemovesFirstMatch | pyspine/animation_commands.py:17-23 | undo pops exactly the first keyframe of the bone within 0.01 of the time, and nothing when there is none |
| AnimationCommands.AddKeyframeRoundTrip | pyspine/animation_commands.py:6-23 | with no keyframe of the bone near the time beforehand, execute then undo gives back the track |
| AnimationCommands.AddKeyframeUndoRemovesOlder | pyspine/animation_commands.py:17-23 | with a keyframe already at the same time, undo removes that older one and keeps the added one |
| AnimationCommands.LastEqualAt | pyspine/animation_commands.py:17-23 | the position found for the fixed undo is the last occurrence of the added keyframe |
| AnimationCommands.AddKeyframeFixedRoundTrip | pyspine/animation_commands.py:6-23 | on a time-ordered track the corrected undo (remove the keyframe execute inserted) inverts execute, whatever else is at that time |
| AnimationCommands.DeleteKeyframeInvalid | pyspine/animation_commands.py:36-42 | with an invalid index both directions change nothing |
| AnimationCommands.DeleteKeyframeRoundTrip | pyspine/animation_commands.py:26-42 | a valid delete shortens the track by one; undo re-inserts the snapshot in time order, exactly restoring a time-ordered track when the deleted keyframe was strictly before its successor, and otherwise the same multiset in time order |
| AnimationCommands.RemoveAtKeepsOrder | pyspine/animation_commands.py:37-38 | popping a keyframe keeps a time-ordered track ordered |
| AnimationCommands.ReinsertAtSamePlace | pyspine/animation_commands.py:40-42 | re-inserting the popped keyframe puts it back where it was when its successor is strictly later |
| AnimationCommands.ModifyKeyframeRoundTrip | pyspine/animation_commands.py:45-69 | execute and undo set transform, time and interpolation of the target to the new and old values, touch no other keyframe, and undo restores the track when the old values were the keyframe's own |
| AnimationCommands.SetInterpolationRoundTrip | pyspine/animation_commands.py:98-112 | execute then undo restores the interpolation; no other keyframe changes |
| AnimationCommands.MoveKeyframeExecute | pyspine/animation_commands.py:82-86 | execute changes only the moved keyframe's time, then leaves the track sorted |
| AnimationCommands.MoveKeyframeUndo | pyspine/animation_commands.py:88-95 | undo gives the first keyframe within 0.01 of the new time the old time, and leaves the track sorted |
| AnimationCommands.MoveKeyframeRoundTrip | pyspine/animation_commands.py:72-95 | on a track with distinct times, moving a keyframe to a time no other keyframe lies within 0.01 of and then undoing gives back the track exactly |
| AnimationCommands.BoneManipulationExecute | pyspine/animation_commands.py:284-302 | execute leaves the new transform on the first keyframe near the command's time, adding at most one keyframe |
| AnimationCommands.BoneManipulationUndoRestores | pyspine/animation_commands.py:304-320 | with a keyframe already near the time holding the recorded old transform (not all zero), undo restores it |
| AnimationCommands.BoneManipulationUndoRemovesCreated | pyspine/animation_commands.py:312-317 | with no keyframe near the time and an all-zero old transform, undo removes the keyframe execute created |
| AnimationCommands.BoneManipulationUndoKeepsCreated | pyspine/animation_commands.py:314-320 | a drag on a bone without keyframes records (0, 0, 0, 1), which is not all zero, so undo keeps the created keyframe |
| AnimationCommands.ManipulationFixedRoundTrip | pyspine/animation_commands.py:272-320 | with the old transform read from the keyframe at the time (if any), the corrected undo inverts execute in both cases |
| AnimationCommands.ClearAnimationRoundTrip | pyspine/animation_commands.py:248-269 | execute empties every track, keeps every bone's track and resets the time to 0; undo gives back the tracks and the time |
| AnimationEditor.LoopAdvanceInRange | pyspine/PySpine_AnimationEditor.py:874-881 | starting in [0, duration) and moving forward, the playing clock stays in [0, duration) |
| AnimationEditor.StepBounds | pyspine/old_pyspine/animation_editor.py:536-544 | a step back never goes below 0 and moves exactly one frame unless clamped; a step forward never passes the duration |
| AnimationEditor.StepBackUndoesStepForward | pyspine/old_pyspine/animation_editor.py:536-544 | the old editor's step back undoes an unclamped step forward |
| AnimationEditor.StepBackTruncatedSkips | pyspine/PySpine_AnimationEditor.py:678-679 | the truncating step back does not: forward then back from 0.5 s lands on 0, and back from 2 s lands on 1 s |
| AnimationEditor.TimelineTimeInRange | pyspine/PySpine_AnimationEditor.py:647-653 | a scrub position is a whole number of seconds in [0, duration], within one second below the clamped time |
| AnimationEditor.ClampTimeInRange | pyspine/old_pyspine/animation_editor.py:484-490 | the old editor's clamp lies in [0, duration] and keeps an in-range time |
| AnimationEditor.WorldScaleRule | pyspine/PySpine_AnimationEditor.py:308 | a zero scale gives 1, any scale is floored at 0.1, a scale of at least 0.1 is kept |
| AnimationEditor.RootBoneWorld | pyspine/PySpine_AnimationEditor.py:247-310 | an unknown bone is at the origin with scale 1; a bone without a track keeps its original position, angle and scale 1; the scale is never below 0.1 |
| AnimationEditor.RootWithoutAnimation | pyspine/PySpine_AnimationEditor.py:294-308 | a root with an empty or absent track stays where it was drawn, unscaled |
| AnimationEditor.RootWorldShift | pyspine/PySpine_AnimationEditor.py:305-306 | shifting the original position shifts the world position by the same amount |
| AnimationEditor.ManipulationChangedMeans | pyspine/PySpine_AnimationEditor.py:397-400 | a bone drag is not recorded exactly when every channel moved by at most 0.1, so a drag that moved nothing is never recorded |
| AnimationEditor.KeyframeMoveFromZeroIsLost | pyspine/PySpine_AnimationEditor.py:410 | a keyframe drag from time 0.0 to 2.0 is not recorded as written, and is under the corrected test |
| AnimationEditor.KeyframeMoveRecordedFixedMeans | pyspine/PySpine_AnimationEditor.py:410-419 | the corrected test records exactly the drags that moved by more than 0.01, and agrees with the written one for every non-zero start |
| AnimationEditor.AnimationClock.constructor | pyspine/PySpine_AnimationEditor.py:135-138 | time 0, duration 5, 30 fps, not playing |
| AnimationEditor.AnimationClock.Update | pyspine/PySpine_AnimationEditor.py:874-881 | while playing the time advances by dt and loops to 0 at the duration, staying below it; paused, it is unchanged |
| AnimationEditor.AnimationClock.TogglePlayback | pyspine/PySpine_AnimationEditor.py:675-676 | playing flips |
| AnimationEditor.AnimationClock.StepBackward | pyspine/PySpine_AnimationEditor.py:678-679 | the time becomes the truncated step back |
| AnimationEditor.AnimationClock.StepForwardOneFrame | pyspine/PySpine_AnimationEditor.py:681-682 | the time advances one frame, clamped at the duration |
| AnimationEditor.AnimationClock.GoToStart | pyspine/PySpine_AnimationEditor.py:684-685 | the time is 0 |
| AnimationEditor.AnimationClock.GoToEnd | pyspine/PySpine_AnimationEditor.py:687-688 | the time is the duration |
| AnimationEditor.AnimationClock.Scrub | pyspine/PySpine_AnimationEditor.py:642-645 | the time becomes the whole-second timeline position |
| AnimationEditor.ClearAllOldResult | pyspine/old_pyspine/animation_editor.py:756-763 | the old clear acts only when some track has a keyframe; then every track is emptied and the time reset, with the same bones |
| BoneCommands.AddChild | pyspine/bone_commands.py:22-23 | the child is listed once, appended only when absent |
| BoneCommands.DropChild | pyspine/bone_commands.py:29-30 | the first listing of the child is removed when present |
| BoneCommands.SetParentOf | pyspine/bone_commands.py:66-67 | only the named bone's parent changes |
| BoneCommands.CreateExecute | pyspine/bone_commands.py:16-23 | the bone is stored under its name; an existing parent lists it |
| BoneCommands.CreateUndo | pyspine/bone_commands.py:25-34 | the bone is gone and the parent no longer lists it first |
| BoneCommands.CreateExecuteEffect | pyspine/bone_commands.py:16-23 | execute stores the bone, lists it once among an existing parent's children, and changes no other bone |
| BoneCommands.CreateUndoEffect | pyspine/bone_commands.py:25-34 | undo removes the bone and, when the parent listed it at most once, removes it from the parent's children |
| BoneCommands.CreateRoundTrip | pyspine/bone_commands.py:7-34 | creating a new bone under a parent that does not list it, then undoing, gives back the dictionary exactly |
| BoneCommands.Present | pyspine/bone_commands.py:48-51 | the recorded children are exactly the listed ones that are bones, in order |
| BoneCommands.NewDeleteBone | pyspine/bone_commands.py:40-51 | the snapshot is taken exactly when the bone exists, with its present children recorded |
| BoneCommands.AdoptFacts | pyspine/bone_commands.py:63-72 | every listed child present in the dictionary gets the deleted bone's parent; bones other than the children and the new parent are untouched |
| BoneCommands.AdoptParentFacts | pyspine/bone_commands.py:69-72 | the grandparent gains exactly the present children, each once |
| BoneCommands.ReclaimFacts | pyspine/bone_commands.py:90-94 | every recorded child present gets the restored bone as parent; other bones except the grandparent are untouched |
| BoneCommands.ReclaimParentFacts | pyspine/bone_commands.py:96-100 | the recorded children leave the grandparent's list, which stays free of duplicates |
| BoneCommands.DeleteUnknownIsNoOp | pyspine/bone_commands.py:54-55 | a bone unknown at construction makes execute and undo no-ops |
| BoneCommands.DeleteExecuteEffect | pyspine/bone_commands.py:53-75 | execute removes the bone and its parent's listing; each present child takes the bone's parent and is listed by it; no other bone changes |
| BoneCommands.DeleteExecuteGrandparent | pyspine/bone_commands.py:57-72 | the grandparent's children lose the bone and gain the present children, each once |
| BoneCommands.DeleteRoundTrip | pyspine/bone_commands.py:37-100 | in a consistent neighbourhood, delete then undo restores the bone, gives each recorded child the bone as parent again, and changes no bone other than the grandparent |
| BoneCommands.DeleteRoundTripGrandparent | pyspine/bone_commands.py:84-100 | the grandparent lists the bone again (at the end) and no longer lists the recorded children |
| BoneCommands.MoveRoundTrip | pyspine/bone_commands.py:103-123 | only x and y change; undo after execute restores a bone whose old position was recorded |
| BoneCommands.RotateRoundTrip | pyspine/bone_commands.py:126-150 | omitted lengths default to the current one and survive both directions; undo after execute restores the recorded angle |
| BoneCommands.ChangeLayerRoundTrip | pyspine/bone_commands.py:153-171 | layer and layer order go to the new values and back; omitted orders default to the bone's own |
| BoneCommands.ChangeAttachmentRoundTrip | pyspine/bone_commands.py:174-193 | the attachment point goes to the new value and back |
| BoneCommands.BoneStore.constructor | pyspine/bone_commands.py:10-14 | the store holds the given dictionary |
| BoneCommands.BoneStore.ExecuteCreate | pyspine/bone_commands.py:16-23 | the dictionary becomes CreateExecute of the old one |
| BoneCommands.BoneStore.UndoCreate | pyspine/bone_commands.py:25-34 | the dictionary becomes CreateUndo of the old one |
| BoneCommands.BoneStore.ExecuteDelete | pyspine/bone_commands.py:53-75 | the dictionary becomes DeleteExecute of the old one, through the loop over the children |
| BoneCommands.BoneStore.AdoptChild | pyspine/bone_commands.py:65-72 | one turn of the execute loop |
| BoneCommands.BoneStore.ReclaimChild | pyspine/bone_commands.py:92-100 | one turn of the undo loop |
| BoneCommands.BoneStore.UndoDelete | pyspine/bone_commands.py:77-100 | the dictionary becomes DeleteUndo of the old one |
| BoneHierarchy.AncestorGrounded | pyspine/PySpine_BoneEditor.py:703-709 | a finite parent chain stays finite from every ancestor |
| BoneHierarchy.GroundedNoCycle | pyspine/PySpine_BoneEditor.py:703-709 | a bone with a finite parent chain is never an ancestor of its own parent |
| BoneHierarchy.NotBelowMissing | pyspine/PySpine_BoneEditor.py:700-701 | a name that is not a bone is below nothing |
| BoneHierarchy.BelowStep | pyspine/PySpine_BoneEditor.py:704-709 | d is below a exactly when its parent is a or its parent is a bone below a |
| BoneHierarchy.AncestorBelow | pyspine/PySpine_BoneEditor.py:704-709 | every strict ancestor on the chain is one the walk finds |
| BoneHierarchy.IsDescendant | pyspine/PySpine_BoneEditor.py:698-710 | the walk answers true exactly when d is below a; it terminates on every finite chain |
| BoneHierarchy.LinkKeepsAcyclic | pyspine/PySpine_BoneEditor.py:672 | giving a bone a parent whose chain avoids it keeps every chain finite |
| BoneHierarchy.IndexOf | pyspine/PySpine_BoneEditor.py:684 | `list.index`: the first position of the element |
| BoneHierarchy.Detach | pyspine/PySpine_BoneEditor.py:665-669 | leaving the old parent's list changes no parent link |
| BoneHierarchy.DropAsChild | pyspine/PySpine_BoneEditor.py:671-674 | the dragged bone's parent is the target, which lists it; no other link changes |
| BoneHierarchy.InsertBeside | pyspine/PySpine_BoneEditor.py:683-689 | the dragged bone goes just before or after the target, or last when the target is not listed |
| BoneHierarchy.DropBeside | pyspine/PySpine_BoneEditor.py:679-691 | the dragged bone takes the target's parent, which lists it when it is a bone; no other link changes |
| BoneHierarchy.DropKeepsAcyclic | pyspine/PySpine_BoneEditor.py:640-642 | a target that is neither the dragged bone nor below it keeps the hierarchy free of cycles in every drop position |
| BonePlacement.Placed | pyspine/PySpine_BoneEditor.py:801-811 | the child keeps every field but its position and starts on the parent's end for END and on the parent's start for START |
| BonePlacement.Follow | pyspine/PySpine_BoneEditor.py:793-814 | the walk over the children lists adds and removes no bone; what it moves is stated by `FollowShape` and `FollowPlacesChildren` |
| BonePlacement.Reattach | pyspine/PySpine_BoneEditor.py:769-791 | re-attaching a bone adds and removes no bone; what it moves is stated by `ReattachPlaces` |
| BonePlacement.KidReached | pyspine/PySpine_BoneEditor.py:799-800 | every listed child that is a bone is one the walk places |
| BonePlacement.FollowKidsStep | pyspine/PySpine_BoneEditor.py:799-814 | the loop over the children places the first child that is a bone, walks its subtree, then goes on with the rest |
| BonePlacement.ReachKidsStep | pyspine/PySpine_BoneEditor.py:799-814 | the bones the loop reaches are the first child that is a bone, its subtree, and what the rest reach |
| BonePlacement.FollowShape | pyspine/PySpine_BoneEditor.py:793-814 | the walk changes positions only, and only of bones it reaches from the named bone |
| BonePlacement.FollowKidsShape | pyspine/PySpine_BoneEditor.py:799-814 | the loop over the children changes positions only, and only of bones reachable from those children |
| BonePlacement.FollowAgree | pyspine/PySpine_BoneEditor.py:793-814 | two sheets of the same shape that agree outside a set of bones still agree there after the walk, except on the bones the walk places |
| BonePlacement.PlaceAgree | pyspine/PySpine_BoneEditor.py:801-811 | placing one child in two such sheets keeps them of the same shape and agreeing outside the set |
| BonePlacement.FollowKidsAgree | pyspine/PySpine_BoneEditor.py:799-814 | the loop over the children keeps two such sheets agreeing outside the set, except on the bones it places |
| BonePlacement.FollowIdempotent | pyspine/PySpine_BoneEditor.py:793-814 | when the bone is not below itself, repositioning twice is repositioning once |
| BonePlacement.FollowAfterFollow | pyspine/PySpine_BoneEditor.py:793-814 | putting back a bone with the same children after a repositioning and repositioning again gives the same sheet as repositioning the put-back sheet directly |
| BonePlacement.FollowKidsPlaces | pyspine/PySpine_BoneEditor.py:799-814 | when the children lists below form a tree, each listed child ends on its attachment point of the parent, which does not move |
| BonePlacement.FollowPlacesChildren | pyspine/PySpine_BoneEditor.py:793-814 | after repositioning, the bone is unchanged and each of its children sits on its attachment point of it |
| BonePlacement.ReattachPlaces | pyspine/PySpine_BoneEditor.py:769-791 | only positions change, only of the bone and its subtree; with a parent bone outside the subtree the bone sits on its attachment point of the unchanged parent; without a parent bone nothing changes |
| BonePlacement.ReattachAgree | pyspine/PySpine_BoneEditor.py:769-791 | the result does not depend on where the bone and its subtree stood before |
| BonePlacement.ReattachChanged | pyspine/PySpine_BoneEditor.py:769-791 | re-attaching an edited bone (same children and parent) keeps the bone set and the edited shape, moves only it and its subtree, puts it on its attachment point, and with no parent bone stores the edit alone |
| BonePlacement.ReattachTwice | pyspine/PySpine_BoneEditor.py:769-791 | re-attaching an edited bone, putting the old shape back and re-attaching again equals re-attaching the original sheet |
| BonePlacement.SameChildren | pyspine/PySpine_BoneEditor.py:793-814 | replacing a bone by one with the same children leaves every children list as it was |
| BonePlacement.ShapeChildren | pyspine/PySpine_BoneEditor.py:793-814 | sheets of the same shape have the same bones and the same children lists |
| BonePlacement.ShapeRestore | pyspine/PySpine_BoneEditor.py:769-791 | putting back a bone's old shape after an edit and a repositioning returns a sheet of the original shape |
| BoneQueries.Priority | pyspine/old_pyspine/bone_common.py:204-220 | an end-point hit ranks 0, a start-point hit 1 and a body hit 2, and only those |
| BoneQueries.AdjustedTolerance | pyspine/old_pyspine/bone_common.py:196 | the click tolerance never drops below its floor and, at zoom 1 or less, is the floor or the truncated tolerance, whichever is larger |
| BoneQueries.ToleranceShrinksWithZoom | pyspine/old_pyspine/bone_common.py:196 | zooming in never widens the click tolerance |
| BoneQueries.EditorTolerance | pyspine/old_pyspine/bone_editor.py:159 | the old editor's tolerance is at least 4 |
| BoneQueries.EditorToleranceFloor | pyspine/old_pyspine/bone_editor.py:159 | from zoom 2 on the tolerance is exactly 4; at zoom 1 or below it is at least 8 |
| BoneQueries.SortHits | pyspine/old_pyspine/bone_common.py:223 | the hits come out ordered by (priority, name) and are a permutation of the input |
| BoneQueries.AllBonesAt | pyspine/old_pyspine/bone_common.py:192-224 | the result lists every qualifying (bone, part) hit exactly once, with no repeats, sorted by (priority, name); a body hit qualifies only when neither end of that bone does |
| BoneQueries.BoneAt | pyspine/old_pyspine/bone_common.py:249-252 | none exactly when nothing qualifies; otherwise the name of a qualifying hit that is ordered before every other qualifying hit |
| BoneQueries.AttachmentPointAt | pyspine/old_pyspine/bone_common.py:227-245 | none exactly when no bone has an end or start point within the tolerance; otherwise the first such bone in dictionary order, with END when its end point is near, else START |
| BoneQueries.ObjectsAt | pyspine/old_pyspine/bone_editor.py:156-183 | the `elif` chain: every qualifying hit is listed, each bone at most once, sorted by (priority, name) |
| BoneQueries.OneEntryPerBone | pyspine/old_pyspine/bone_editor.py:167-179 | two hits the `elif` chain admits for the same bone are the same hit |
| BoneQueries.LayerRank | pyspine/old_pyspine/bone_common.py:180 | BEHIND ranks first, FRONT last, and MIDDLE between them |
| BoneQueries.InLayer | pyspine/old_pyspine/bone_common.py:170-173 | a layer group holds exactly the listed bones on that layer, each no more often than in the dictionary order |
| BoneQueries.GroupSorted | pyspine/old_pyspine/bone_common.py:175-177 | each layer group, after its sort, is ordered by `layer_order` |
| BoneQueries.DrawOrderComplete | pyspine/old_pyspine/bone_common.py:161-188 | every bone is drawn, and exactly once |
| BoneQueries.DrawOrderSorted | pyspine/old_pyspine/bone_common.py:161-188 | bones are drawn BEHIND, then MIDDLE, then FRONT, and by ascending `layer_order` within a layer |
| BoneQueries.PartitionCount | pyspine/old_pyspine/bone_common.py:164-173 | the three layer groups together hold as many bones as the dictionary |
| BoneEditor.ClearRoundTrip | pyspine/PySpine_BoneEditor.py:80-97 | executing the clear empties the bones and the selection, and undoing it gives back the bones and selection captured at construction |
| BoneEditor.LayerEdit | pyspine/PySpine_BoneEditor.py:231-268 | a command exists exactly when a bone is selected and sits on another layer; it moves only that bone to the target layer and its undo restores the sheet |
| BoneEditor.CycleLayerEdit | pyspine/PySpine_BoneEditor.py:270-287 | a command exists exactly when a bone is selected; it moves that bone to the next layer of BEHIND, MIDDLE, FRONT, BEHIND and its undo restores the sheet |
| BoneEditor.IncreaseOrderEdit | pyspine/PySpine_BoneEditor.py:289-300 | with a bone selected, its `layer_order` goes up by one, nothing else changes, and undo restores the sheet |
| BoneEditor.DecreaseOrderEdit | pyspine/PySpine_BoneEditor.py:302-314 | a command exists exactly when the selected bone's order is not 0; the order drops by one, never below 0, and undo restores the sheet |
| BoneEditor.ToggleEdit | pyspine/PySpine_BoneEditor.py:316-330 | a command exists exactly when the selected bone has a parent; running it swaps START and END and re-attaches the bone and its subtree to the parent (`Realign`) |
| BoneEditor.ToggleRoundTrip | pyspine/PySpine_BoneEditor.py:316-330 | the toggle keeps the bones, always changes the point and keeps the rest of the bone's shape, moves nothing outside the bone's subtree, puts the bone on the new point of a parent bone outside its subtree, and undo gives back the sheet (re-attached at the old point when the parent is a bone) |
| BoneEditor.DragRecord | pyspine/PySpine_BoneEditor.py:185-230 | a record exists exactly when the dragged angle/length (end drag) or position (start or body drag) moved by more than 0.1; undoing it puts back the values from the press and repositions the bone's subtree |
| BoneEditor.DragRedo | pyspine/PySpine_BoneEditor.py:185-230 | redoing an undone drag record gives back the dragged sheet with the bone's subtree repositioned |
| BoneEditor.DragSettles | pyspine/PySpine_BoneEditor.py:720-767 | repositioning a subtree that was just repositioned changes nothing, so a dragged sheet is its own redo |
| BoneEditor.DragCarriesChildren | pyspine/PySpine_BoneEditor.py:793-814 | after a drag the bone holds its dragged values and each child that is a bone sits on its attachment point of it, when the children lists below form a tree |
| BoneEditor.EndDragged | pyspine/PySpine_BoneEditor.py:731-753 | a new length above 5 takes the new length and angle; a shorter one leaves the bone untouched; no other field changes, and a bone longer than 5 stays longer than 5 |
| BoneEditor.BodyDragged | pyspine/PySpine_BoneEditor.py:755-767 | only the position changes, and a cursor at the press point plus the press offset leaves the bone where it was |
| BoneEditor.CreationAppendIsNoOp | pyspine/PySpine_BoneEditor.py:378-395 | after the create command runs, the new bone is already among its parent's children, so the editor's extra append changes nothing |
| BoneEditor.PositionFor | pyspine/PySpine_BoneEditor.py:641-648 | the drop is "before" above -4, "after" beyond 4, and "child" in between, and exactly one of them |
| BoneEditor.Dropped | pyspine/PySpine_BoneEditor.py:653-696 | a drop adds and removes no bone; which links and positions it changes is stated by `DropPlaces` |
| BoneEditor.DropLinks | pyspine/PySpine_BoneEditor.py:665-691 | only the dragged bone's links change, and its parent becomes the target for "child" and the target's parent for "before" and "after" |
| BoneEditor.DropPlaces | pyspine/PySpine_BoneEditor.py:653-696 | after the drop the links are those of `DropLinks`, only positions of the dragged bone and its subtree differ from them, and under a parent bone outside its subtree the dragged bone sits on its attachment point |
| BoneEditor.DropAcyclic | pyspine/PySpine_BoneEditor.py:640-642 | a drop onto a target that is neither the dragged bone nor below it keeps every parent chain finite |
| BoneEditor.BoneSheetEditor.constructor | pyspine/PySpine_BoneEditor.py:101-158 | the editor starts with no bones, no selection, empty undo and redo stacks and no drag in progress |
| BoneEditor.BoneSheetEditor.Issue | pyspine/undo_redo_common.py:36-55 | a command runs on the sheet, is appended to a history trimmed to 50 and clears the redo stack; no command leaves everything as it was |
| BoneEditor.BoneSheetEditor.SetLayer | pyspine/PySpine_BoneEditor.py:231-268 | the sheet and the undo stack change exactly by `LayerEdit` |
| BoneEditor.BoneSheetEditor.CycleLayer | pyspine/PySpine_BoneEditor.py:270-287 | the sheet and the undo stack change exactly by `CycleLayerEdit` |
| BoneEditor.BoneSheetEditor.IncreaseLayerOrder | pyspine/PySpine_BoneEditor.py:289-300 | the sheet and the undo stack change exactly by `IncreaseOrderEdit` |
| BoneEditor.BoneSheetEditor.DecreaseLayerOrder | pyspine/PySpine_BoneEditor.py:302-314 | the sheet and the undo stack change exactly by `DecreaseOrderEdit` |
| BoneEditor.BoneSheetEditor.ToggleAttachmentPoint | pyspine/PySpine_BoneEditor.py:316-330 | the sheet and the undo stack change exactly by `ToggleEdit` |
| BoneEditor.BoneSheetEditor.ClearAllBones | pyspine/PySpine_BoneEditor.py:357-361 | an empty sheet is left alone; otherwise the bones and selection are cleared and one clear command is recorded |
| BoneEditor.BoneSheetEditor.DeleteSelected | pyspine/PySpine_BoneEditor.py:826-831 | without a selected bone nothing changes; otherwise the delete command runs, is recorded, and the selection is cleared |
| BoneEditor.BoneSheetEditor.NextBoneName | pyspine/PySpine_BoneEditor.py:838-864 | the name is unused and is "bone_k" for the smallest k >= 1 that no "bone_<digits>" key uses |
| BoneEditor.BoneSheetEditor.AddBone | pyspine/PySpine_BoneEditor.py:363-395 | exactly one new bone with a fresh name is created through a recorded command, attached to the bone found under the press (END otherwise), and selected |
| BoneEditor.BoneSheetEditor.CreateBoneAtPosition | pyspine/PySpine_BoneEditor.py:363-395 | one new bone of length 50 is added and selected |
| BoneEditor.BoneSheetEditor.CompleteBoneCreation | pyspine/PySpine_BoneEditor.py:452-495 | a release inside the viewport after a drag longer than 10 adds, through a pushed create command, one bone with an unused name starting at the press point with the dragged length and angle, attached as the query found, and selects it (`Released`); otherwise the sheet and undo stack are unchanged; the press point is forgotten either way |
| BoneEditor.BoneSheetEditor.CycleSelection | pyspine/PySpine_BoneEditor.py:332-349 | with more than one hit under the cursor the index advances by one modulo the hit count and that hit is selected; otherwise nothing changes |
| BoneEditor.BoneSheetEditor.HandleBoneSelection | pyspine/PySpine_BoneEditor.py:547-606 | no hit clears the selection; a repeated click near the last one on the same hits advances the cycle, anything else starts at the first hit; the chosen bone is selected and the matching end, start or body drag starts with the press values saved |
| BoneEditor.BoneSheetEditor.UpdateEndDrag | pyspine/PySpine_BoneEditor.py:731-753 | with a selected bone and a new length above 5 the bone changes by `EndDragged` and its subtree is repositioned; otherwise nothing changes |
| BoneEditor.BoneSheetEditor.UpdateStartDrag | pyspine/PySpine_BoneEditor.py:720-729 | the selected bone starts at the cursor and its subtree is repositioned; without a selection nothing changes |
| BoneEditor.BoneSheetEditor.UpdateBodyDrag | pyspine/PySpine_BoneEditor.py:755-767 | the selected bone changes by `BodyDragged` and its subtree is repositioned; without a selection nothing changes |
| BoneEditor.BoneSheetEditor.CompleteCurrentOperation | pyspine/PySpine_BoneEditor.py:185-230 | the sheet is unchanged; with an operation on a selected bone the `DragRecord` is appended (redo cleared) and the operation ends; otherwise nothing changes |
| BoneEditor.BoneSheetEditor.HierarchyPanelClick | pyspine/PySpine_BoneEditor.py:608-627 | the first row within 12 pixels is selected and, in editing mode, becomes the dragged bone, unless a hierarchy drag is already running; the bones never change |
| BoneEditor.BoneSheetEditor.UpdateHierarchyDrag | pyspine/PySpine_BoneEditor.py:629-651 | a drop target is set exactly when the nearest row is neither the dragged bone nor one of its descendants, with the position `PositionFor` gives; on parent chains that end |
| BoneEditor.BoneSheetEditor.CompleteHierarchyDrag | pyspine/PySpine_BoneEditor.py:653-696 | with a hierarchy drag, a dragged bone and a drop target set, the sheet changes exactly by `Dropped`, otherwise not at all (`DropDone`); a drop onto a target not below the dragged bone keeps the parent chains finite; both bones must still be stored |
| BoneEditor.BoneSheetEditor.FinishBoneOperation | pyspine/PySpine_BoneEditor.py:427-435 | no bone is lost and no operation starts; the sheet and undo stack are those of `Released`: the drag's `DragRecord` pushed, then the bone created from the press point when the release is in the viewport after a drag longer than 10 |
| BoneEditor.BoneSheetEditor.HandleMouseUp | pyspine/PySpine_BoneEditor.py:427-447 | every creation, bone drag and hierarchy drag flag is cleared and no operation has started; before the drop the sheet and undo stack are those of `Released` (the drag record, then the created bone), and the drop is `DropDone` on that sheet |
| BoneEditor.BoneSheetEditor.EndDrags | pyspine/PySpine_BoneEditor.py:437-447 | the drag flags are cleared and the sheet changes by `DropDone` |
| LegacyBoneEditor.Relinked | pyspine/old_pyspine/bone_editor.py:759-767 | the relationship update keeps the set of bone keys |
| LegacyBoneEditor.Rekeyed | pyspine/boneless_core_base.py:379-395 | the object leaves the old key and is stored, under its new name, at the new key; every other entry is untouched |
| LegacyBoneEditor.ReplaceFirstRemoves | pyspine/old_pyspine/bone_editor.py:765-767 | in a children list without repeats, replacing the first occurrence removes the old name and brings in the new one |
| LegacyBoneEditor.RelinkedForgetsOldName | pyspine/old_pyspine/bone_editor.py:759-767 | after the update no parent link or children list names the old bone, every former mention names the new one, and nothing but parent and children changes |
| LegacyBoneEditor.RelinkedBack | pyspine/old_pyspine/bone_editor.py:759-767 | renaming the references back restores the dictionary when the new name was unused before |
| LegacyBoneEditor.LegacyBoneEditor.constructor | pyspine/old_pyspine/bone_editor.py:52-75 | the editor starts with the given bones, an empty selection and no pending creation |
| LegacyBoneEditor.LegacyBoneEditor.StartBoneCreation | pyspine/old_pyspine/bone_editor.py:334-338 | the press point is kept and the selection is emptied |
| LegacyBoneEditor.LegacyBoneEditor.CompleteBoneCreation | pyspine/old_pyspine/bone_editor.py:340-390 | without a press point, or for a drag of 10 or less, nothing is created; otherwise a bone under the smallest free "bone_k" name starts at the press point with the drag's length and angle, attached to the bone found (END when none), the dictionary is what `CreateBoneCommand.execute` would give, and the new bone alone is selected; the press point is always cleared |
| LegacyBoneEditor.LegacyBoneEditor.UpdateStartDrag | pyspine/old_pyspine/bone_editor.py:392-403 | without a selection nothing changes; otherwise the first selected bone starts at the cursor and its subtree is repositioned |
| LegacyBoneEditor.LegacyBoneEditor.UpdateEndDrag | pyspine/old_pyspine/bone_editor.py:406-425 | without a selection, or for a length of 5 or less, nothing changes; otherwise the first selected bone takes the new length and angle and `update_child_bone_positions` repositions its subtree |
| LegacyBoneEditor.LegacyBoneEditor.UpdateBodyDrag | pyspine/old_pyspine/bone_editor.py:427-438 | without a selection nothing changes; otherwise the first selected bone keeps the press offset from the cursor and its subtree is repositioned |
| LegacyBoneEditor.LegacyBoneEditor.RenameObject | pyspine/old_pyspine/bone_editor.py:753-769 | false exactly for an unknown old name, which changes nothing; otherwise the bones are re-keyed, then re-linked, and the selection follows the rename |
| LegacyBoneEditor.LegacyBoneEditor.DeleteSelected | pyspine/old_pyspine/bone_editor.py:771-810 | without a selection nothing changes; otherwise exactly the first selected bone leaves the dictionary, the selection is cleared, and for a bone not among its own children the result is the delete command's (its children adopted by its parent) |
| LegacyBoneEditor.LegacyBoneEditor.ChangeLayerOrder | pyspine/old_pyspine/bone_editor.py:634-647 | the selected bone's order becomes max(0, order + delta), and a command is sent exactly when that changed it |
| LegacyBoneEditor.LegacyBoneEditor.SetLayer | pyspine/old_pyspine/bone_editor.py:601-613 | the selected bone takes the layer, and a command is sent exactly when the layer differed |
| LegacyBoneEditor.LegacyBoneEditor.CycleLayer | pyspine/old_pyspine/bone_editor.py:615-632 | the selected bone moves to the next layer of BEHIND, MIDDLE, FRONT, BEHIND, and a command is always sent |
| LegacyBoneEditor.LegacyBoneEditor.ToggleAttachment | pyspine/old_pyspine/bone_editor.py:649-702 | a command is sent exactly when the selected bone has a parent; then START and END swap and `update_bone_attachment_position` re-attaches the bone and its subtree (`Realign`); otherwise nothing changes |
| LegacyBoneEditor.LegacyBoneEditor.ClearAllBones | pyspine/old_pyspine/bone_editor.py:467-485 | the dictionary ends empty, one delete is issued for each former key, and the selection is cleared unless there was nothing to clear |
| LegacyBoneEditor.OwnChildrenRead | pyspine/old_pyspine/bone_editor.py:779-800 | the editor's own unlinking and adoption followed by the delete command give what the delete command alone gives, unless the bone lists itself as a child |
| LegacyBoneEditor.AdoptKeys | pyspine/old_pyspine/bone_editor.py:789-797 | the adoption loop never adds or removes a bone |
| SpriteCommands.NewDelete | pyspine/sprite_commands.py:27-31 | the command keeps the key and snapshots the entry exactly when the key is present at construction |
| SpriteCommands.CreateEffect | pyspine/sprite_commands.py:7-21 | execute stores the command's sprite under its key and touches no other key; undo removes only that key and is a no-op when it is absent |
| SpriteCommands.CreateRoundTrip | pyspine/sprite_commands.py:7-21 | create then undo restores a dictionary that lacked the key, but drops the earlier sprite under a key already in use; redo after undo is the same as execute |
| SpriteCommands.DeleteRoundTrip | pyspine/sprite_commands.py:24-39 | deleting a present key removes it and undo restores the dictionary; for a key absent at construction both directions change nothing |
| SpriteCommands.Store.constructor | pyspine/sprite_commands.py:10-14 | the store starts with the given dictionary |
| SpriteCommands.Store.ExecuteCreate | pyspine/sprite_commands.py:16-17 | the dictionary changes exactly by `CreateExecute` |
| SpriteCommands.Store.UndoCreate | pyspine/sprite_commands.py:19-21 | the dictionary changes exactly by `CreateUndo` |
| SpriteCommands.Store.ExecuteDelete | pyspine/sprite_commands.py:33-35 | the dictionary changes exactly by `DeleteExecute` |
| SpriteCommands.Store.UndoDelete | pyspine/sprite_commands.py:37-39 | the dictionary changes exactly by `DeleteUndo` |
| SpriteCommands.MoveSpriteRoundTrip | pyspine/sprite_commands.py:42-57 | a move sets x and y only, and undo restores the sprite |
| SpriteCommands.ResizeSetsExactlyBounds | pyspine/sprite_commands.py:60-79 | execute sets the four bounds to the new ones and undo to the old ones, nothing else changes, and undo after execute restores the sprite when the old bounds were its own |
| SpriteCommands.ChangeOriginRoundTrip | pyspine/sprite_commands.py:82-97 | the origin alone changes, and undo restores the sprite |
| SpriteCommands.InstanceFieldRoundTrips | pyspine/sprite_commands.py:135-166 | moving, rotating and scaling an instance each change only their own fields, and each undo restores the instance |
| SpriteCommands.AttachRoundTrip | pyspine/sprite_commands.py:169-190 | attaching sets the bone and the attachment point together and nothing else, and undo restores both |
| SpriteRectRules.TopmostAt | pyspine/PySpine_SpriteSheetEditor.py:596-605 | none exactly when no rectangle contains the point; otherwise the last-inserted sprite whose rectangle, edges included, contains it |
| SpriteRectRules.AllAt | pyspine/boneless_sprite_editor.py:138-152 | the hits are exactly the sprites whose rectangle contains the point |
| SpriteRectRules.TopmostIsFirstHit | pyspine/boneless_sprite_editor.py:598-607 | the single topmost hit is the head of the hit list, and none exactly when the list is empty |
| SpriteRectRules.FirstNear | pyspine/PySpine_SpriteSheetEditor.py:388-412 | no handle exactly when the point is near none of the listed handles; otherwise the first listed handle it is near |
| SpriteRectRules.HandleAt | pyspine/PySpine_SpriteSheetEditor.py:380-412 | a corner is returned only when the point is near it, an edge only when the point is near it and near no corner, and no handle exactly when it is near none |
| SpriteRectRules.HandleSize | pyspine/PySpine_SpriteSheetEditor.py:386 | the handle size is at least the floor and at least the truncated scale over zoom |
| SpriteRectRules.ResizeAxis | pyspine/PySpine_SpriteSheetEditor.py:438-514 | the span is at least 5; with a sheet the low edge lies in [0, size] and the high edge does not pass the sheet unless the minimum forces it; without a sheet a span of 5 or more is kept and only the dragged edge is moved to restore the minimum |
| SpriteRectRules.Resized | pyspine/PySpine_SpriteSheetEditor.py:438-514 | the resized sprite is at least 5 by 5 and, over a sheet, starts on the sheet |
| SpriteRectRules.ResizeBounds | pyspine/PySpine_SpriteSheetEditor.py:438-514 | at least 5 by 5 and on the sheet; without a sheet, edges the handle does not move stay put and a right or bottom drag of 5 or more sets the width or height to the truncated drag distance |
| SpriteRectRules.BonelessResizeBounds | pyspine/boneless_sprite_editor.py:388-437 | the boneless editor's resize also yields at least 5 by 5 and stays on the sheet |
| SpriteRectRules.ResizeRulesAgree | pyspine/boneless_sprite_editor.py:388-437 | from a sprite at least 5 by 5, the boneless editor's resize gives the same bounds as the sprite-sheet editor's |
| SpriteRectRules.AxisRuleAgrees | pyspine/boneless_sprite_editor.py:420-433 | on one axis, "the low edge moved" and "the handle moves the low edge" pick the same widening side when the old span was at least 5 |
| SpriteRectRules.DragAxis | pyspine/PySpine_SpriteSheetEditor.py:516-535 | over a sheet the new coordinate is at least 0 and keeps the sprite on the sheet when it fits, and equals the truncated cursor minus offset when that is already in range; without a sheet it is always that |
| SpriteRectRules.LegacyDragAxis | pyspine/old_pyspine/NewEditor_SpriteSheet.py:616-622 | the old editor's drag is the truncated cursor minus offset, raised to 0 when negative |
| SpriteRectRules.MarkerAxis | pyspine/PySpine_SpriteSheetEditor.py:537-549 | the fraction lies in [0, 1], is 0.5 for a zero extent, is the cursor's exact fraction inside the rectangle, and saturates at 0 and 1 outside it |
| SpriteRectRules.LegacyMarkerAxis | pyspine/old_pyspine/NewEditor_SpriteSheet.py:775-790 | the old origin drag fails exactly on a zero extent and otherwise agrees with the guarded one |
| SpriteRectRules.CreationAxis | pyspine/PySpine_SpriteSheetEditor.py:414-436 | the preview lies on the sheet, and is the truncated low end and span of the drag when both ends are on it |
| SpriteRectRules.CreationRect | pyspine/PySpine_SpriteSheetEditor.py:414-436 | the creation preview lies inside the sheet |
| SpriteRectRules.AtPositionAxis | pyspine/PySpine_SpriteSheetEditor.py:562-577 | without a sheet the sprite is 50 wide at the position; with one it stays on the sheet and keeps the 50 when the sheet is that large |
| SpriteRectRules.AtPositionBounds | pyspine/PySpine_SpriteSheetEditor.py:562-577 | a sprite made at a position is 50 by 50 without a sheet and lies on the sheet with one |
| SpriteRectRules.FinishAxis | pyspine/old_pyspine/NewEditor_SpriteSheet.py:720-726 | without a sheet the bounds are the truncated drag; with one they stay on the sheet and keep the span when it fits |
| SpriteRectRules.FinishCreationBounds | pyspine/old_pyspine/NewEditor_SpriteSheet.py:699-744 | a drag under 5 on either side becomes at least 32 on both; a larger drag keeps its truncated size; with a sheet the sprite lies on it |
| SpriteRectRules.EndpointDefaults | pyspine/boneless_sprite_editor.py:725-732 | every loaded field is kept and a missing `endpoint_x` becomes 1.0 and a missing `endpoint_y` 0.5 |
| SpriteSheetEditor.Without | pyspine/sprite_commands.py:33-35 | removing a key from the insertion order keeps every other key, keeps it repeat-free, and changes nothing when the key is absent |
| SpriteSheetEditor.Put | pyspine/sprite_commands.py:16-17 | a store sets the dictionary as `CreateExecute` does, leaves the selection, and keeps the insertion order in step with the keys |
| SpriteSheetEditor.Drop | pyspine/sprite_commands.py:19-21 | a delete removes the key as `CreateUndo` does, leaves the selection, and keeps the insertion order in step |
| SpriteSheetEditor.Retouch | pyspine/PySpine_SpriteSheetEditor.py:516-549 | a direct field assignment keeps the keys, the insertion order and the selection |
| SpriteSheetEditor.EditsKeepOrder | pyspine/PySpine_SpriteSheetEditor.py:69-86 | every command's execute and undo keep the insertion order in step with the dictionary |
| SpriteSheetEditor.AddUndo | pyspine/sprite_commands.py:7-21 | creating a sprite under a new name and undoing restores the dictionary, its order and the selection |
| SpriteSheetEditor.RemoveUndo | pyspine/sprite_commands.py:24-39 | deleting a sprite and undoing restores the dictionary and the selection, but the sprite moves to the end of the insertion order, so it becomes the topmost hit at its own corner |
| SpriteSheetEditor.ClearUndo | pyspine/PySpine_SpriteSheetEditor.py:69-86 | clearing empties the sprites and the selection, undoing restores both as recorded, and redo after undo clears again |
| SpriteSheetEditor.FieldEditsUndo | pyspine/sprite_commands.py:42-97 | move, resize and origin commands built from the sprite's current values undo exactly, and redo after undo gives the edited sprite back |
| SpriteSheetEditor.OperationRecord | pyspine/PySpine_SpriteSheetEditor.py:216-272 | the first of resize, move and origin whose start value was saved gives a record exactly when the sprite's value differs from it; undoing it puts the start value back and is a real change, and redo returns the live state |
| SpriteSheetEditor.SelectedHandle | pyspine/PySpine_SpriteSheetEditor.py:380-412 | a handle is reported only for a selected sprite and only when the point is strictly near it |
| SpriteSheetEditor.Editor.constructor | pyspine/PySpine_SpriteSheetEditor.py:90-137 | the editor starts with no sprites, no selection, empty stacks and no interaction in progress |
| SpriteSheetEditor.Editor.Issue | pyspine/undo_redo_common.py:36-55 | the command runs, becomes the newest record of a history trimmed to 50, and the redo stack is emptied |
| SpriteSheetEditor.Editor.CreateAtBounds | pyspine/PySpine_SpriteSheetEditor.py:551-560 | the new name is unused and of the form "sprite_k" with k free; the sprite is stored last in the order and selected, the create is pushed on the undo stack within the limit of 50 with the redo stack cleared, and undoing it restores the previous sprites |
| SpriteSheetEditor.Editor.CreateAtPosition | pyspine/PySpine_SpriteSheetEditor.py:562-577 | a new sprite with the bounds `AtPositionBounds` gives is added under an unused name and selected, on the sheet when one is loaded |
| SpriteSheetEditor.Editor.ClearAllSprites | pyspine/PySpine_SpriteSheetEditor.py:585-589 | no sprites means no change and no record; otherwise sprites and selection are emptied and undoing the new record restores them |
| SpriteSheetEditor.Editor.DeleteSelected | pyspine/PySpine_SpriteSheetEditor.py:688-693 | without a selection nothing changes; otherwise the selected sprite leaves the dictionary and the order, the selection is cleared and the delete is recorded |
| SpriteSheetEditor.Editor.SelectFromPanel | pyspine/PySpine_SpriteSheetEditor.py:364-374 | a row within the list selects the sprite at that place of the insertion order; any other row changes nothing |
| SpriteSheetEditor.Editor.ViewportClick | pyspine/PySpine_SpriteSheetEditor.py:319-362 | during creation nothing changes; a grabbed handle starts a resize with the bounds saved; otherwise the topmost hit is selected and a press on its origin marker starts an origin drag from its origin, elsewhere a move from its corner with the press offset kept (`Grab`); a miss starts creating at the point with nothing selected; no sprite and no record changes |
| SpriteSheetEditor.Editor.StartAt | pyspine/PySpine_SpriteSheetEditor.py:336-362 | a hit is selected and, by whether the press is on its origin marker, starts an origin drag or a move with the start value and offset saved (`Grab`); a miss starts creation at the point and clears the selection |
| SpriteSheetEditor.Editor.UpdateSpriteCreation | pyspine/PySpine_SpriteSheetEditor.py:414-436 | with a press point and a sheet the preview becomes `CreationRect` and lies on the sheet; otherwise it is unchanged |
| SpriteSheetEditor.Editor.UpdateSpriteResize | pyspine/PySpine_SpriteSheetEditor.py:438-514 | the selected sprite takes `ResizeBounds` of its start bounds and stays at least 5 by 5; without a selection or start bounds nothing changes |
| SpriteSheetEditor.Editor.UpdateSpriteDrag | pyspine/PySpine_SpriteSheetEditor.py:516-535 | the selected sprite's corner becomes `DragAxis` of the cursor and stays on the sheet when it fits |
| SpriteSheetEditor.Editor.UpdateOriginDrag | pyspine/PySpine_SpriteSheetEditor.py:537-549 | the selected sprite's origin becomes `MarkerAxis` of the cursor, within [0, 1] |
| SpriteSheetEditor.Editor.CompleteCurrentOperation | pyspine/PySpine_SpriteSheetEditor.py:216-272 | with an operation on a selected sprite, the `OperationRecord` (if any) is appended without running and clears redo, and the start data is cleared; otherwise, including a selected id that is gone (where the source raises `KeyError`), the history is untouched |
| SpriteSheetEditor.Editor.MouseUp | pyspine/PySpine_SpriteSheetEditor.py:190-214 | every interaction mode ends; the finished operation's `OperationRecord` is pushed, then a pending preview more than 5 by 5 adds exactly one new selected sprite with those bounds and pushes its create within the limit of 50; anything else leaves the sprites and the rest of the undo stack alone |
| SpriteSheetEditor.Editor.FinishCreation | pyspine/PySpine_SpriteSheetEditor.py:196-205 | during creation a pending preview more than 5 by 5 becomes one new selected sprite with those bounds and a pushed create, and the preview is dropped; otherwise the sprites and undo stack are unchanged |
| SpriteSheetEditor.ClearUndoKeepsCreated | pyspine/PySpine_SpriteSheetEditor.py:69-86 | as written, create, clear, undo, undo on an empty editor leaves "sprite_1" in it, because the create command's undo deletes from the dictionary the clear replaced |
| SpriteSheetEditor.ClearUndoThenCreateUndo | pyspine/PySpine_SpriteSheetEditor.py:69-86 | with one shared dictionary, the same four steps give back the editor as it was |
| LegacySpriteSheetEditor.RenameSprite | pyspine/old_pyspine/NewEditor_SpriteSheet.py:497-505 | a new name equal to the sprite's own or already a key changes nothing; otherwise the sprite leaves its key, is stored renamed under the new one at the end of the insertion order, every other sprite is kept, and the selection follows |
| LegacySpriteSheetEditor.RenameBack | pyspine/old_pyspine/NewEditor_SpriteSheet.py:497-505 | renaming there and back restores the dictionary and the selection, with the sprite now last in the insertion order |
| LegacySpriteSheetEditor.Retarget | pyspine/old_pyspine/sprite_commands.py:42-97 | a field command on the renamed sprite is redirected to the new name; every other command is unchanged |
| LegacySpriteSheetEditor.RetargetAll | pyspine/old_pyspine/sprite_commands.py:42-97 | every stacked command is retargeted, in place and order |
| LegacySpriteSheetEditor.FieldUpdate | pyspine/old_pyspine/sprite_commands.py:42-97 | a move, resize or origin command never changes the sprite's name |
| LegacySpriteSheetEditor.FieldUpdateIgnoresName | pyspine/old_pyspine/sprite_commands.py:42-97 | a move, resize or origin command acts the same on a renamed sprite, only the name differing, and changes nothing on an empty sheet |
| LegacySpriteSheetEditor.FieldExec | pyspine/old_pyspine/sprite_commands.py:42-97 | a field command changes only the sprite it names, and nothing when that name is not a key |
| LegacySpriteSheetEditor.RetargetCommutes | pyspine/old_pyspine/NewEditor_SpriteSheet.py:497-505 | running a retargeted command after the rename is the same as running the original command before it, so name-keyed commands keep the object identity of Python's commands |
| LegacySpriteSheetEditor.RetargetSprites | pyspine/old_pyspine/NewEditor_SpriteSheet.py:497-505 | for a field command the sprites after rename-then-retargeted-command equal the sprites after command-then-rename |
| LegacySpriteSheetEditor.RekeyBack | pyspine/old_pyspine/NewEditor_SpriteSheet.py:500-503 | moving a sprite to a free key under its new name and back restores the dictionary |
| LegacySpriteSheetEditor.WithoutAppended | pyspine/old_pyspine/NewEditor_SpriteSheet.py:500-502 | removing a key just appended to an order that lacked it gives the order back |
| LegacySpriteSheetEditor.Unpack4 | pyspine/old_pyspine/sprite_commands.py:66-67 | tuple unpacking into four names succeeds exactly for a tuple of four, and then binds them in order |
| LegacySpriteSheetEditor.SizeCommandAsWritten | pyspine/old_pyspine/NewEditor_SpriteSheet.py:517-525 | as written, a size command can only be built from a four-element tuple, which a (width, height) pair never is |
| LegacySpriteSheetEditor.SizePropertyRaises | pyspine/old_pyspine/NewEditor_SpriteSheet.py:517-525 | as written, every width or height edit raises instead of resizing |
| LegacySpriteSheetEditor.SizeEdit | pyspine/old_pyspine/NewEditor_SpriteSheet.py:517-525 | the intended size command keeps the position, sets the new size, and its undo gives the old size back |
| LegacySpriteSheetEditor.PropertyEdit | pyspine/old_pyspine/NewEditor_SpriteSheet.py:507-535 | name and unknown properties build no command; x and y a move with `int()` of the value, width and height the intended resize, origin fields an origin change with `float()` of the value; each is undone exactly |
| LegacySpriteSheetEditor.DragRecord | pyspine/old_pyspine/NewEditor_SpriteSheet.py:746-758 | no record exactly when the sprite sits at the press point minus the grab offset; otherwise a move whose execute leaves the sprite as it is and whose undo puts it at the truncated start |
| LegacySpriteSheetEditor.Editor.constructor | pyspine/old_pyspine/NewEditor_SpriteSheet.py:171-209 | the editor starts with no sprites, no selection, empty stacks and no interaction in progress |
| LegacySpriteSheetEditor.Editor.Issue | pyspine/old_pyspine/undo_redo_common.py:36-55 | the command runs, becomes the newest record of a history trimmed to 50, and the redo stack is emptied |
| LegacySpriteSheetEditor.Editor.PropertyChange | pyspine/old_pyspine/NewEditor_SpriteSheet.py:489-538 | without a selected sprite, or for an unknown property, nothing changes; a name change is the unrecorded `RenameSprite` with the stacks retargeted; any other property runs and records its `PropertyEdit` |
| LegacySpriteSheetEditor.Editor.Rename | pyspine/old_pyspine/NewEditor_SpriteSheet.py:497-505 | the sheet becomes `RenameSprite` of the selected sprite; when that changes anything, every command on both stacks is retargeted to the new name |
| LegacySpriteSheetEditor.Editor.MouseDown | pyspine/old_pyspine/NewEditor_SpriteSheet.py:540-576 | the topmost sprite under the point is selected and its origin marker starts an origin drag, else a grabbed handle a resize, else a move with the grab offset saved; a miss starts creation at the point; no sprite changes |
| LegacySpriteSheetEditor.Editor.Grab | pyspine/old_pyspine/NewEditor_SpriteSheet.py:555-565 | the origin marker starts an origin drag, else a handle under the inclusive test a resize, else a move with the grab offset from the corner; every other drag field keeps its value (`Grabbed`) |
| LegacySpriteSheetEditor.Editor.MouseMotion | pyspine/old_pyspine/NewEditor_SpriteSheet.py:604-631 | only the selected sprite can change; a move sets its corner by `LegacyDragAxis`, never below 0; an origin drag fails exactly on a zero width or height and otherwise sets the origin within [0, 1], by `MarkerAxis` for a positive size |
| LegacySpriteSheetEditor.Editor.FinishSpriteCreation | pyspine/old_pyspine/NewEditor_SpriteSheet.py:699-744 | a sprite with the `FinishCreationBounds` rectangle is added last under "sprite_k" for the smallest free k and selected, and undoing its record removes it again |
| LegacySpriteSheetEditor.Editor.CreateNewSprite | pyspine/old_pyspine/NewEditor_SpriteSheet.py:800-821 | a 32 by 32 sprite centred on the point is added last under a fresh name and selected, and undoing its record removes it again |
| LegacySpriteSheetEditor.Editor.FinishSpriteDrag | pyspine/old_pyspine/NewEditor_SpriteSheet.py:746-758 | the sprites never change; the `DragRecord`, when there is one, becomes the newest record |
| LegacySpriteSheetEditor.Editor.MouseUp | pyspine/old_pyspine/NewEditor_SpriteSheet.py:578-602 | every drag mode ends; a pending creation adds exactly one new selected sprite with the `FinishCreationBounds` rectangle; otherwise the sprites are unchanged, and nothing is recorded unless a move finished |
| LegacySpriteSheetEditor.Editor.DeleteSelected | pyspine/old_pyspine/NewEditor_SpriteSheet.py:823-831 | without a selected sprite nothing changes; otherwise it is removed, the selection is cleared and the delete is recorded |
| BonelessSpriteEditor.Rects | pyspine/boneless_sprite_editor.py:143-148 | every stored sprite, and only those, has the rectangle of its bounds |
| BonelessSpriteEditor.ObjectsAt | pyspine/boneless_sprite_editor.py:138-154 | every hit is a "sprites" body hit; a sprite is hit exactly when its rectangle contains the point; the list is empty exactly when `get_sprite_at_position` finds nothing, and otherwise starts with what it finds |
| BonelessSpriteEditor.Before | pyspine/boneless_sprite_editor.py:490-591 | the sprite before a drag differs from the live one only in the fields that kind of drag changes, which take the start values |
| BonelessSpriteEditor.OperationRecord | pyspine/boneless_sprite_editor.py:490-591 | for a stored sprite that is not `None`, a "modify" record from the rebuilt old sprite to the live one; for a name that is gone, where the source raises `KeyError`, the model gives no record |
| BonelessSpriteEditor.OperationUndoRedo | pyspine/boneless_sprite_editor.py:490-591 | undoing the record restores exactly the dragged fields from the start data and leaves the selection, and redoing it afterwards gives the data as it was when the drag ended |
| BonelessSpriteEditor.CreateRecordUndo | pyspine/boneless_sprite_editor.py:462-488 | undoing the "create" record of a new sprite gives back the data without it |
| BonelessSpriteEditor.DeleteRecordUndo | pyspine/boneless_sprite_editor.py:675-693 | undoing the "delete" record of a stored sprite puts it back |
| BonelessSpriteEditor.NewSprite | pyspine/boneless_sprite_editor.py:462-488 | a new sprite has the given name and bounds, its origin at (0, 0.5) and its endpoint at (1, 0.5) |
| BonelessSpriteEditor.SaveSprite | pyspine/boneless_sprite_editor.py:695-713 | a saved sprite has exactly the sprite record's fields |
| BonelessSpriteEditor.LoadSprite | pyspine/boneless_sprite_editor.py:715-739 | a load succeeds only on known fields with a string name, which names the sprite; a missing endpoint becomes (1.0, 0.5) and a missing origin (0.5, 0.5) |
| BonelessSpriteEditor.SaveLoadRoundTrip | pyspine/boneless_sprite_editor.py:695-739 | a saved sprite loads back as the same sprite |
| BonelessSpriteEditor.LoadSprites | pyspine/boneless_sprite_editor.py:715-739 | the load succeeds exactly when every sprite loads, and then keeps every key with its loaded sprite |
| BonelessSpriteEditor.Editor.constructor | pyspine/boneless_sprite_editor.py:40-68 | the editor starts with an empty "sprites" dictionary, empty history and redo stack, and no operation |
| BonelessSpriteEditor.Editor.Store | pyspine/boneless_sprite_editor.py:303-437 | a drag handler's assignment changes exactly the named sprite's fields |
| BonelessSpriteEditor.Editor.Current | pyspine/boneless_core_base.py:527-534 | a current sprite is the first selected sprite, and it is stored and not `None` |
| BonelessSpriteEditor.Editor.RenameObject | pyspine/boneless_sprite_editor.py:119-136 | true exactly for a stored sprite name; then the data and the selection are renamed as in the universal editor, and no record is added; otherwise nothing changes |
| BonelessSpriteEditor.Editor.UpdateSpriteDrag | pyspine/boneless_sprite_editor.py:303-320 | only the current sprite's corner changes, to `DragAxis` of the cursor, kept on the sheet when it fits |
| BonelessSpriteEditor.Editor.UpdateOriginDrag | pyspine/boneless_sprite_editor.py:334-345 | only the current sprite's origin changes, to `MarkerAxis` of the cursor, within [0, 1] |
| BonelessSpriteEditor.Editor.UpdateEndpointDrag | pyspine/boneless_sprite_editor.py:359-370 | only the current sprite's endpoint changes, to `MarkerAxis` of the cursor, within [0, 1] |
| BonelessSpriteEditor.Editor.UpdateSpriteResize | pyspine/boneless_sprite_editor.py:388-437 | during a resize only the current sprite's bounds change, to `BonelessResizeBounds` of the start bounds, at least 5 by 5 |
| BonelessSpriteEditor.Editor.UpdateSpriteCreation | pyspine/boneless_sprite_editor.py:256-277 | with a press point and a sheet the preview becomes `CreationRect`; otherwise it is unchanged |
| BonelessSpriteEditor.Editor.MouseDrag | pyspine/boneless_sprite_editor.py:227-248 | creation changes no sprite, other modes leave the preview, no mode changes nothing, and the current sprite stays current |
| BonelessSpriteEditor.Editor.StartSpriteDrag | pyspine/boneless_sprite_editor.py:291-301 | a move starts with the grab offset and the sprite's corner saved |
| BonelessSpriteEditor.Editor.StartMarkerDrag | pyspine/boneless_sprite_editor.py:322-357 | the sprite alone is selected and an origin or endpoint drag starts with that marker's values saved |
| BonelessSpriteEditor.Editor.StartResizeOperation | pyspine/boneless_sprite_editor.py:372-386 | with a current sprite a resize starts with the handle and the sprite's bounds saved; otherwise nothing starts |
| BonelessSpriteEditor.Editor.ViewportClick | pyspine/boneless_sprite_editor.py:172-205 | no data or history changes; while a creation is pending nothing starts; a strict hit on a handle of the current sprite starts a resize with its bounds saved; any other click acts as `SpritesClicked` states |
| BonelessSpriteEditor.Editor.ClickSprites | pyspine/boneless_sprite_editor.py:184-205 | no data or history changes; on the topmost sprite its endpoint marker, else its origin marker, starts that marker's drag with the sprite alone selected; any other click acts as `Selected` states |
| BonelessSpriteEditor.Editor.SelectAt | pyspine/boneless_sprite_editor.py:196-205 | the click selects with cycling among the sprites under the point; the topmost one starts a move with its grab offset and corner saved exactly when it is then the first selected, leaving other drag state alone; a click on no sprite starts creation at the point with nothing selected |
| BonelessSpriteEditor.Editor.StartSpriteCreation | pyspine/boneless_sprite_editor.py:250-254 | creation starts at the point and nothing is selected |
| BonelessSpriteEditor.Editor.MoveIfFirst | pyspine/boneless_sprite_editor.py:198-200 | a move of the sprite starts exactly when it is the first selected one; otherwise the drag state is unchanged |
| BonelessSpriteEditor.Editor.CreateSpriteWithBounds | pyspine/boneless_sprite_editor.py:462-488 | a sprite with an unused name and the given bounds is added, its "create" record joins a history trimmed to 50, redo is emptied, it alone is selected, and undoing the record restores the data |
| BonelessSpriteEditor.Editor.CreateSpriteAtPosition | pyspine/boneless_sprite_editor.py:439-453 | a sprite with the `AtPositionBounds` rectangle is added under an unused name, on the sheet when one is loaded |
| BonelessSpriteEditor.Editor.CompleteSpriteCreation | pyspine/boneless_sprite_editor.py:279-289 | a pending preview more than 5 by 5 becomes exactly one new sprite under an unused name with its "create" record in a history trimmed to 50 and redo emptied; a smaller one changes neither data nor stacks; the preview is dropped either way |
| BonelessSpriteEditor.Editor.CompleteCurrentOperation | pyspine/boneless_core_base.py:909-914 | with an operation in progress, the `OperationRecord` (if any) is appended unexecuted to a history trimmed to 50 and empties redo, and the operation ends |
| BonelessSpriteEditor.Editor.MouseUp | pyspine/boneless_core_base.py:1143-1151 | every drag mode ends; the `OperationRecord` of an operation in progress joins the history first (trimmed to 50, redo emptied), then a pending preview more than 5 by 5 adds one new sprite whose "create" record follows it; otherwise data and stacks are as the operation left them |
| BonelessSpriteEditor.Editor.LeftClickRelease | pyspine/boneless_sprite_editor.py:207-218 | every drag mode ends; a pending creation completes as `CompleteSpriteCreation` states; otherwise data and stacks are unchanged |
| BonelessSpriteEditor.Editor.DeleteSelected | pyspine/boneless_sprite_editor.py:675-693 | without a current sprite nothing changes; otherwise it is removed, the selection cleared, and undoing the newest record puts it back |
| UniversalEditor.ExecuteData | pyspine/boneless_core_base.py:875-894 | execution fails exactly for a rename record or a record whose type has no dictionary; otherwise every type dictionary is kept and only the record's own type is touched |
| UniversalEditor.RenameData | pyspine/boneless_core_base.py:379-398 | the object leaves the old key (when the names differ) and is stored, renamed, under the new key; every other key and every other type is unchanged |
| UniversalEditor.RenameSelected | pyspine/boneless_core_base.py:400-404 | only the renamed type's selection list changes, by replacing the first occurrence of the old name |
| UniversalEditor.Unselect | pyspine/boneless_core_base.py:509-513 | only the given type's selection list changes, losing its first occurrence of the id |
| UniversalEditor.UndoData | pyspine/boneless_core_base.py:829-873 | undoing a record keeps the set of type dictionaries |
| UniversalEditor.UndoAfterExecute | pyspine/boneless_core_base.py:829-894 | executing a record that describes the store succeeds, and undoing it restores the data; the selection is kept, except that undoing a create also unselects the id |
| UniversalEditor.UndoAfterRename | pyspine/boneless_core_base.py:379-421 | undoing a rename into a free name restores both the data and the selection |
| UniversalEditor.RenameUndoneData | pyspine/boneless_core_base.py:838-852 | removing the new key and storing the object under the old name again restores the data |
| UniversalEditor.RenameUndoneSelection | pyspine/boneless_core_base.py:400-404 | renaming the selection there and back restores it when the new name was not selected |
| UniversalEditor.RedoData | pyspine/boneless_core_base.py:896-907 | the corrected redo re-executes an edit record as execute does, and re-applies a rename exactly when the old name is still stored |
| UniversalEditor.RedoAfterUndo | pyspine/boneless_core_base.py:896-907 | the corrected redo after undo gives back the data the record produced, renames included |
| UniversalEditor.LeadingSpaces | pyspine/boneless_core_base.py:352 | counts exactly the whitespace prefix |
| UniversalEditor.TrailingSpaces | pyspine/boneless_core_base.py:352 | counts exactly the whitespace suffix |
| UniversalEditor.Strip | pyspine/boneless_core_base.py:352 | `strip()` never lengthens the text, leaves no whitespace at either end, and is empty exactly for all-whitespace text |
| UniversalEditor.StripTrailingS | pyspine/boneless_core_base.py:568-569 | `rstrip('s')` removes exactly the run of trailing "s" characters |
| UniversalEditor.Editor.constructor | pyspine/boneless_core_base.py:69-143 | one empty dictionary per object type, empty history, redo stack and selection, and no name edit |
| UniversalEditor.Editor.ExecuteCommand | pyspine/boneless_core_base.py:875-894 | succeeds exactly when `ExecuteData` does; then the data changes by it, the record is the newest of a history capped at 50, and redo is emptied; on failure nothing changes |
| UniversalEditor.Editor.Undo | pyspine/boneless_core_base.py:829-873 | with history, the newest record moves to the redo stack and the data and selection change by `UndoData`; without history nothing changes |
| UniversalEditor.Editor.Redo | pyspine/boneless_core_base.py:896-907 | as written, redo re-executes the popped record: on success the rest of the redo stack is lost; a rename record fails and is dropped from both stacks |
| UniversalEditor.Editor.RedoFixed | pyspine/boneless_core_base.py:896-907 | the corrected redo applies `RedoData`, moves the record back onto the history and keeps the rest of the redo stack |
| UniversalEditor.Editor.RenameObject | pyspine/boneless_core_base.py:379-421 | true exactly for a known type and name; then the data and selection are renamed and a rename record is pushed (redo emptied); otherwise nothing changes |
| UniversalEditor.Editor.StartNameEdit | pyspine/boneless_core_base.py:340-345 | a name edit opens on the object with its id as the text |
| UniversalEditor.Editor.CompleteNameEdit | pyspine/boneless_core_base.py:347-370 | an open edit renames exactly when the stripped text is non-empty, new and not a key of the type, and is then closed either way; no open edit changes nothing |
| UniversalEditor.Editor.CancelNameEdit | pyspine/boneless_core_base.py:372-377 | the name edit is closed and its text emptied |
| UniversalEditor.Editor.SelectObject | pyspine/boneless_core_base.py:498-507 | without multi-select exactly this object is selected; with it the id is appended once to its type's list; either way it is selected afterwards |
| UniversalEditor.Editor.DeselectObject | pyspine/boneless_core_base.py:509-513 | the selection changes exactly by `Unselect` |
| UniversalEditor.Editor.ClearSelection | pyspine/boneless_core_base.py:515-517 | nothing is selected afterwards |
| UniversalEditor.Editor.IsObjectSelected | pyspine/boneless_core_base.py:519-521 | true exactly when the id is in its type's selection list |
| UniversalEditor.Editor.GetSelectedObjects | pyspine/boneless_core_base.py:523-525 | the type's selection list, or empty for a type without one |
| UniversalEditor.Editor.GetFirstSelected | pyspine/boneless_core_base.py:527-534 | none exactly when the type's list is empty; otherwise its first, selected, entry |
| UniversalEditor.Editor.HandleSelectionAtPosition | pyspine/boneless_core_base.py:428-463 | no hit clears the selection and the cycle; a repeated click near the last one on the same hits advances the cycle, otherwise it restarts at 0; the chosen hit alone is selected and the click is remembered |
| UniversalEditor.Editor.CycleSelection | pyspine/boneless_core_base.py:465-475 | with more than one hit the index advances modulo the count and that hit alone is selected; otherwise nothing changes |
| UniversalEditor.Editor.GetNextObjectName | pyspine/boneless_core_base.py:566-599 | the base is the given one or the type without trailing "s" plus "_"; an unknown type gives base + "1"; otherwise the smallest unused positive suffix, so the name is free |
| Scene.WouldCreateCycle | pyspine/boneless_editor.py:1124-1131 | the walk up from the proposed parent ends, and it answers true exactly when the child is the proposed parent or one of its ancestors |
| Scene.FewerLinksRooted | pyspine/boneless_editor.py:1095-1122 | clearing parent links or removing instances never makes a parent chain longer, so no cycle can appear that way |
| Scene.LinkKeepsRooted | pyspine/boneless_editor.py:933-945 | linking a child under a parent for which `would_create_cycle` is false keeps every parent chain finite (at most 2n + 1 long when they were at most n) |
| Scene.MutualParentsNeverRoot | pyspine/boneless_editor.py:1124-1131 | with two instances naming each other as parent, the walk of `would_create_cycle` from either never ends |
| Scene.Detach | pyspine/old_pyspine/boneless_editor.py:830-835 | only the old parent's children list may change; every other field of every instance is kept |
| Scene.Relink | pyspine/old_pyspine/boneless_editor.py:830-843 | the child gets the new parent and attachment, every other link is kept, unlinking only clears links, and a present new parent lists the child |
| Scene.RelinkMirrors | pyspine/old_pyspine/boneless_editor.py:830-843 | after re-parenting, every children list holds each entry once and lists exactly the instances whose parent link names it |
| Scene.RelinkClosed | pyspine/old_pyspine/boneless_editor.py:830-843 | re-parenting to nothing or to a present instance leaves no link naming a missing instance |
| Scene.UpdateKeepsStructure | pyspine/boneless_editor.py:240-260 | an edit of one instance that keeps its link and its children list keeps the lists in step, the links closed and the chain bound |
| Scene.AddRootRooted | pyspine/boneless_editor.py:451-463 | adding a parentless instance lengthens chain bounds by at most one |
| Scene.AddRoot | pyspine/boneless_editor.py:451-463 | adding a parentless instance with no children keeps the children lists in step and the links closed |
| Scene.MoveTo | pyspine/boneless_editor.py:1113-1114 | only the child's position changes |
| Scene.MoveKeepsStructure | pyspine/boneless_editor.py:1113-1114 | moving an instance keeps the lists in step, the links closed and the chain bound |
| Scene.UnlinkKeepsStructure | pyspine/boneless_editor.py:1095-1114 | unparenting to world leaves the child a root with ORIGIN attachment, on no children list, and keeps the lists in step, the links closed and the chain bound |
| Scene.LinkKeepsStructure | pyspine/boneless_editor.py:1062-1082 | a checked re-parent keeps the lists in step and the links closed, keeps chains finite, and the new parent lists the child |
| Scene.Orphan | pyspine/boneless_editor.py:1812-1816 | exactly the listed children that are instances lose their parent and get ORIGIN attachment; every other instance is unchanged |
| Scene.OrphanKids | pyspine/boneless_editor.py:1812-1816 | the loop over the children list computes `Orphan` |
| Scene.DeleteInstance | pyspine/boneless_editor.py:1803-1820 | the deleted id is the only key removed, and links are only kept or cleared |
| Scene.DeleteList | pyspine/boneless_editor.py:1806-1810 | in each remaining children list only the deleted id can disappear, and only from its parent's list |
| Scene.DeleteLink | pyspine/boneless_editor.py:1812-1816 | a remaining instance loses its link (and gets ORIGIN attachment) exactly when it was on the deleted instance's list |
| Scene.DeleteOrphans | pyspine/boneless_editor.py:1812-1816 | every former child of the deleted instance is a root with ORIGIN attachment afterwards |
| Scene.DeleteClosed | pyspine/boneless_editor.py:1803-1820 | no link is left naming the deleted instance |
| Scene.DeleteKeepsStructure | pyspine/boneless_editor.py:1803-1820 | deleting keeps the lists in step, the links closed and every chain bound |
| Scene.DeleteMirrors | pyspine/boneless_editor.py:1803-1820 | deleting keeps every children list free of repeats and in step with the links |
| Scene.LayerAlpha | pyspine/boneless_editor.py:1380-1387 | the alpha is a byte value |
| Scene.LayerAlphaOrdered | pyspine/boneless_editor.py:1380-1387 | BEHIND is more transparent than MIDDLE, which is more transparent than the opaque FRONT |
| Scene.ClampedOrder | pyspine/boneless_editor.py:297 | the new order is never negative, and is the requested order unless that would be negative, in which case it is 0 |
| Scene.ValidSnapCandidates | pyspine/boneless_editor.py:806-814 | a candidate survives exactly when it is not the dragged instance and linking to it would not close a cycle |
| Scene.ClosestSnap | pyspine/boneless_editor.py:816-820 | the snap target is the first of the nearest valid candidates and closer than the limit; none is chosen only when every candidate is at least the limit away |
| Scene.FreshInstanceId | pyspine/boneless_editor.py:452-453 | `inst_N` for the counter value N is not yet an instance, and distinct counter values give distinct ids |
| Scene.NewInstanceKeepsIds | pyspine/boneless_editor.py:452-453 | the new id is fresh and non-empty, and after the increment the counter is again above every id |
| Scene.SceneEditor.constructor | pyspine/boneless_editor.py:108-112 | the scene and the core start empty, with an `instances` dictionary only |
| Scene.SceneEditor.Selected | pyspine/boneless_core_base.py:527-530 | a selected id given to a handler is a selected, present instance |
| Scene.SceneEditor.CreateInstanceFromPalette | pyspine/boneless_editor.py:451-476 | the new instance gets the fresh id `inst_N`, the counter advances, only that instance is added, and a create command for it is committed |
| Scene.SceneEditor.SetSelectedInstanceLayer | pyspine/boneless_editor.py:240-260 | nothing changes without a selection or when the layer is already set; otherwise only the layer changes and a modify command is committed |
| Scene.SceneEditor.CycleSelectedInstanceLayer | pyspine/boneless_editor.py:262-287 | with a selection the layer advances BEHIND, MIDDLE, FRONT, BEHIND and a modify command is committed; without one nothing changes |
| Scene.SceneEditor.ChangeSelectedInstanceLayerOrder | pyspine/boneless_editor.py:289-314 | the order moves by the delta but never below 0, and a command is committed only when it actually changes |
| Scene.SceneEditor.UnparentForTransform | pyspine/boneless_editor.py:743-778 | a parented instance becomes a root at its world position, leaves its parent's list, and a modify record is pushed without being applied; an unparented one is left alone |
| Scene.SceneEditor.ReparentToWorld | pyspine/boneless_editor.py:1095-1122 | an unknown child changes nothing; otherwise the child becomes a root with ORIGIN attachment at the drop position, is on no list, and a modify command is committed |
| Scene.SceneEditor.ReparentToAttachmentPoint | pyspine/boneless_editor.py:1062-1093 | an unknown child or parent changes nothing; otherwise the child is linked at the attachment point, listed by its new parent, and a modify command is committed, with chains kept finite |
| Scene.SceneEditor.CompleteInstanceSnap | pyspine/boneless_editor.py:933-973 | the snap happens exactly when both ids are instances and no cycle would close; then the child is linked and listed and the record is pushed; otherwise nothing changes |
| Scene.SceneEditor.DeleteSelected | pyspine/boneless_editor.py:1796-1832 | without a selection nothing changes; otherwise the instance is removed, its children become roots with ORIGIN attachment, a delete command holding the detached instance is committed and the selection cleared |
| Scene.SceneEditor.Undo | pyspine/boneless_core_base.py:829-873 | undo moves only the core's dictionaries and stacks; the live instances stay as they are |
| Scene.SceneEditor.Redo | pyspine/boneless_core_base.py:896-907 | the live instances stay as they are; the newest undone record is re-applied to the core data, joins its history trimmed to 50 and empties the redo stack; a record that cannot be applied is only popped |
| Scene.OldAnimator.constructor | pyspine/old_pyspine/boneless_editor.py:206-213 | the scene and its tracks start empty |
| Scene.OldAnimator.CreateInstanceFromPalette | pyspine/old_pyspine/boneless_editor.py:797-821 | as in the newer editor, and the new instance also gets a fresh empty track while other tracks are kept |
| Scene.OldAnimator.SetParent | pyspine/old_pyspine/boneless_editor.py:823-853 | an unknown child changes nothing; otherwise the instances are re-linked as `Relink` says and a modify command is committed |
| Scene.OldAnimator.ParentSelectedToCursor | pyspine/old_pyspine/boneless_editor.py:1556-1568 | the selected instance is re-linked under the target whenever the target is set and is not the selected instance itself, with no cycle check |
| Scene.OldAnimator.ParentSelectedToCursorFixed | pyspine/old_pyspine/boneless_editor.py:1556-1568 | with the `would_create_cycle` check added, the re-link happens only when no cycle would close, and parent chains stay finite |
| Scene.OldAnimator.UnparentSelected | pyspine/old_pyspine/boneless_editor.py:1570-1575 | a selected parented instance becomes a root; anything else changes nothing; no chain grows |
| Scene.OldAnimator.DeleteSelected | pyspine/old_pyspine/boneless_editor.py:2509-2548 | as the newer editor's delete, and the instance's track is also removed |
| Scene.ParentToCursorMakesCycle | pyspine/old_pyspine/boneless_editor.py:1565-1566 | from a finite two-instance scene, parenting `inst_0` to its own child makes the two each other's parent, after which no parent walk from `inst_0` ends |
| BonelessTrack.EaseInUnit | pyspine/boneless_animate_editor.py:125-133 | each easing curve maps [0, 1] into [0, 1] and fixes 0 and 1 |
| BonelessTrack.EvaluateClamps | pyspine/boneless_animate_editor.py:102-111 | an empty track gives (0, 0, 0, 1, 1, 1); at or before the first keyframe its values; at or after the last keyframe its values |
| BonelessTrack.SegmentHolds | pyspine/boneless_animate_editor.py:119-123 | a CONSTANT segment holds its first keyframe's values, and so does a zero-length segment |
| BonelessTrack.EvaluateInterior | pyspine/boneless_animate_editor.py:113-144 | strictly inside the keyframe range the first enclosing pair has distinct times, and every channel of the result lies between that pair's values |
| BonelessTrack.OldEvaluateSpec | pyspine/old_pyspine/boneless_editor.py:89-130 | the old five-channel evaluation: the same defaults and clamping outside the range, and inside it every channel lies between the enclosing pair's values |
| BonelessTrack.OldAnimationTrack.constructor | pyspine/old_pyspine/boneless_editor.py:73-76 | a track starts with no keyframes |
| BonelessTrack.OldAnimationTrack.AddKeyframe | pyspine/old_pyspine/boneless_editor.py:78-87 | the keyframe goes in front of the first strictly later one, so a time-sorted track stays sorted |
| BonelessTrack.OldAnimationTrack.GetTransformAtTime | pyspine/old_pyspine/boneless_editor.py:89-130 | the scan computes the old evaluation function |
| BonelessTrack.InsertByKeepsOrderIf | pyspine/boneless_animate_editor.py:74-83 | inserting before the first strictly later keyframe keeps a time-sorted list sorted |
| BonelessTrack.AnimationTrack.constructor | pyspine/boneless_animate_editor.py:69-72 | a track starts with no keyframes |
| BonelessTrack.AnimationTrack.AddKeyframe | pyspine/boneless_animate_editor.py:74-83 | the keyframe goes in front of the first strictly later one, so a time-sorted track stays sorted |
| BonelessTrack.AnimationTrack.RemoveKeyframeAtTime | pyspine/boneless_animate_editor.py:85-91 | exactly the first keyframe within the tolerance is removed, and the result says whether there was one |
| BonelessTrack.AnimationTrack.GetKeyframeAtTime | pyspine/boneless_animate_editor.py:93-98 | returns that same first keyframe within the tolerance, or nothing when there is none |
| BonelessTrack.AnimationTrack.GetTransformAtTime | pyspine/boneless_animate_editor.py:100-146 | the scan computes the evaluation function whose properties are proved above |
| BonelessTrack.RemoveOnlyMatch | pyspine/boneless_animate_editor.py:85-98 | when one keyframe alone is near a time, removing at that time leaves no keyframe to find there |
| BonelessAnimator.StepFrameTimeStuck | pyspine/boneless_animate_editor.py:349-354 | as written, the stepped time is truncated to a whole second: from a whole second below the duration, a step forward at more than one frame per second stays on that second |
| BonelessAnimator.StepFrameTimeBackSkips | pyspine/boneless_animate_editor.py:349-354 | as written, a step back from 2 s at 30 frames per second lands on 1 s, while the corrected step lands one frame earlier |
| BonelessAnimator.StepFrameTimeFixedMoves | pyspine/boneless_animate_editor.py:349-354 | the corrected step stays in [0, duration] and moves by exactly one frame whenever that stays inside |
| BonelessAnimator.Capture | pyspine/boneless_animate_editor.py:375-382 | the updated keyframe holds the instance's six channels and keeps its own time, interpolation and owner |
| BonelessAnimator.RecordThenLookup | pyspine/boneless_animate_editor.py:366-399 | after recording, a lookup at that time finds a keyframe holding the instance's values; a keyframe is added only when none was near; time order is kept |
| BonelessAnimator.RecordedSingleReplays | pyspine/boneless_animate_editor.py:366-399 | a track whose only keyframe was recorded from an instance replays that instance's values at every time |
| BonelessAnimator.SetInterpolation | pyspine/boneless_animate_editor.py:410-419 | setting an interpolation keeps every keyframe's time and values |
| BonelessAnimator.SetInterpolationEffect | pyspine/boneless_animate_editor.py:410-419 | only the first keyframe near the time changes, and it gets the requested curve; with none near, nothing changes; time order is kept |
| BonelessAnimator.Posed | pyspine/boneless_animate_editor.py:428-433 | the instance takes the pose's six channels and keeps every other field |
| BonelessAnimator.Animator.constructor | pyspine/boneless_animate_editor.py:150-167 | time starts at 0 with a 5 s duration at 30 frames per second, paused, looping |
| BonelessAnimator.Animator.Update | pyspine/boneless_animate_editor.py:325-340 | when paused nothing changes; the first update after starting only records the clock; reaching the duration loops to 0 or, with looping off, stops at the duration |
| BonelessAnimator.Animator.TogglePlayback | pyspine/boneless_animate_editor.py:342-347 | playback flips, and starting records the clock |
| BonelessAnimator.Animator.StepFrame | pyspine/boneless_animate_editor.py:349-354 | the time becomes the truncated step, kept within [0, duration] |
| BonelessAnimator.Animator.StepFrameFixed | pyspine/boneless_animate_editor.py:349-354 | the time moves one frame, clamped to [0, duration] |
| BonelessAnimator.Animator.GoToTime | pyspine/boneless_animate_editor.py:356-358 | the time becomes the requested time clamped to [0, duration] and truncated to a whole second |
| BonelessAnimator.Animator.SetDuration | pyspine/boneless_animate_editor.py:360-364 | a non-positive duration is ignored; otherwise the duration is set and the time pulled back inside it |
| BonelessAnimator.Animator.AddKeyframeAtCurrentTime | pyspine/boneless_animate_editor.py:366-399 | for an id with an instance and a track, that track records the instance at the current time; every other track is unchanged and all stay in time order |
| BonelessAnimator.Animator.DeleteKeyframeAtCurrentTime | pyspine/boneless_animate_editor.py:401-408 | the first keyframe near the current time is removed from that track only, keeping time order |
| BonelessAnimator.Animator.SetKeyframeInterpolation | pyspine/boneless_animate_editor.py:410-419 | only that track changes, as `SetInterpolation` says |
| BonelessAnimator.Animator.ApplyAnimationAtTime | pyspine/boneless_animate_editor.py:421-433 | every instance with a track takes its track's pose at the time; every other instance is unchanged |
| BonelessAnimator.RemoveAtSorted | pyspine/boneless_animate_editor.py:85-91 | removing one keyframe keeps time order |
| BonelessAnimator.PosedIdempotent | pyspine/boneless_animate_editor.py:421-433 | applying the animation twice at the same time changes nothing more |
| PygameLoader.InitialWorld | example_loaders/pygame/example_pygame_loader.py:66-82 | a freshly loaded bone's world transform is its own position and angle with scale 1 |
| PygameLoader.LoadTrack | example_loaders/pygame/example_pygame_loader.py:122-124 | a loaded track is in time order and holds exactly the file's keyframes |
| PygameLoader.LoadSortedTrack | example_loaders/pygame/example_pygame_loader.py:122-124 | a track already in time order loads unchanged (the sort is stable) |
| PygameLoader.MutualParentsNotGrounded | example_loaders/pygame/example_pygame_loader.py:365-374 | two bones naming each other as parent never reach a root, so `process_bone` on them has no finite recursion |
| PygameLoader.ExtendLog | example_loaders/pygame/example_pygame_loader.py:365-425 | the bones `process_bone(name)` finalises are its parent's log followed by `name`: distinct, ancestors of `name`, parents first |
| PygameLoader.Loader.constructor | example_loaders/pygame/example_pygame_loader.py:176-189 | after loading, playback is stopped at 0, the duration and frame rate are the file's (5 s and 30 by default), every bone is at its loaded position and every track is sorted |
| PygameLoader.Loader.ProcessBone | example_loaders/pygame/example_pygame_loader.py:365-425 | on a bone whose chain reaches a root, the bone ends up placed, and every bone it finalises is new, an ancestor of it, and comes after its parent |
| PygameLoader.Loader.PlaceBone | example_loaders/pygame/example_pygame_loader.py:376-423 | once the parent is placed, the bone is placed from the parent's world transform (or, as a root, from its original position plus the animated offset); no other bone's world transform changes |
| PygameLoader.Loader.UpdateBoneTransforms | example_loaders/pygame/example_pygame_loader.py:360-427 | when no parent chain loops, every bone is placed exactly once and after its parent |
| PygameLoader.Loader.Update | example_loaders/pygame/example_pygame_loader.py:350-358 | while playing, time advances by `dt` and restarts at 0 on reaching the duration; paused, it stays; then every bone is placed |
| PygameLoader.Loader.Play | example_loaders/pygame/example_pygame_loader.py:614-616 | playback starts |
| PygameLoader.Loader.Pause | example_loaders/pygame/example_pygame_loader.py:618-620 | playback stops |
| PygameLoader.Loader.Stop | example_loaders/pygame/example_pygame_loader.py:622-625 | playback stops and the time returns to 0 |
| PygameLoader.Loader.SetTime | example_loaders/pygame/example_pygame_loader.py:627-629 | the time becomes the requested time clamped to [0, duration] and truncated to a whole second |
| SdlLoader.SdlEvaluateEdges | example_loaders/sdl3/main.cpp:181-199 | an empty track gives the identity transform, a one-keyframe track that keyframe's transform at every time, and a time enclosed by no pair the last keyframe's transform |
| SdlLoader.SdlZeroLengthPair | example_loaders/sdl3/main.cpp:202-203 | a time on a zero-length pair takes the first keyframe's transform (`t = 0`) |
| SdlLoader.SdlEvaluateInterior | example_loaders/sdl3/main.cpp:181-232 | inside the first enclosing pair every channel lies between the two keyframes' values, and the pair's start reproduces the first keyframe exactly |
| SdlLoader.SdlBeforeFirstGivesLast | example_loaders/sdl3/main.cpp:189-199 | on a sorted track of two or more keyframes, a time before the first keyframe gives the LAST keyframe's transform |
| SdlLoader.SdlBeforeFirstExample | example_loaders/sdl3/main.cpp:189-199 | at time 0 on keyframes at 1 s and 2 s the result is the 2 s keyframe |
| SdlLoader.SdlEvaluateFixedClamps | example_loaders/sdl3/main.cpp:181-199 | the corrected evaluation clamps to the first keyframe before the range and to the last after it, and agrees with the original from the first keyframe on |
| SdlLoader.Fmod | example_loaders/sdl3/main.cpp:492-494 | the wrapped time lies in [0, duration) and is unchanged below the duration |
| SdlLoader.Advance | example_loaders/sdl3/main.cpp:491-494 | the advanced time stays in [0, duration] and is `time + dt` when that does not pass the duration |
| SdlLoader.Shift | example_loaders/sdl3/main.cpp:503-506 | a track's transform is added to the bone's local position and angle; every other field is kept |
| SdlLoader.Accumulate | example_loaders/sdl3/main.cpp:497-509 | each bone with a track is shifted by that track's transform at the time; every other bone is kept |
| SdlLoader.Scaled | example_loaders/sdl3/main.cpp:507 | only the world scale changes, multiplied by the factor |
| SdlLoader.ScaleWorld | example_loaders/sdl3/main.cpp:497-509 | each bone with a track has its world scale multiplied by the track's scale; every other world transform is kept |
| SdlLoader.AccumulateStep | example_loaders/sdl3/main.cpp:497-509 | handling one more track shifts only its own bone |
| SdlLoader.ScaleWorldStep | example_loaders/sdl3/main.cpp:497-509 | handling one more track scales only its own bone's world scale |
| SdlLoader.AccumulateTwice | example_loaders/sdl3/main.cpp:497-509 | the offsets pile up: two playing updates at the same time move a bone by twice the track's offset |
| SdlLoader.VisitBone | example_loaders/sdl3/main.cpp:296-330 | one visit changes at most the visited bone's world transform and never a world scale |
| SdlLoader.WorldPassSplit | example_loaders/sdl3/main.cpp:296-332 | the pass over `a + b` is the pass over `a` followed by the pass over `b` |
| SdlLoader.WorldPassFrame | example_loaders/sdl3/main.cpp:296-332 | bones the pass does not visit keep their world transform, and no world scale changes |
| SdlLoader.WorldPassRoot | example_loaders/sdl3/main.cpp:297-301 | a visited root ends at its local position and angle |
| SdlLoader.WorldPassMissingParent | example_loaders/sdl3/main.cpp:303-305 | a bone whose parent name is not found keeps its previous world transform |
| SdlLoader.WorldPassChildAfterParent | example_loaders/sdl3/main.cpp:303-328 | a child visited after its parent's last visit ends at the parent's start or end plus its local position, rotated by the parent's world rotation plus its own angle |
| SdlLoader.ChildBeforeParentIsStale | example_loaders/sdl3/main.cpp:294-332 | a child visited before its parent is placed from the parent's previous world transform, not the one the same pass gives the parent |
| SdlLoader.Loader.constructor | example_loaders/sdl3/main.cpp:247-248 | given a storage order that lists each bone exactly once, as a `std::map` does: after loading, every bone is at its local position and angle with world scale 1, stopped at 0; the duration and frame rate are the file's, 5 s and 30 by default |
| SdlLoader.Loader.ApplyTracks | example_loaders/sdl3/main.cpp:497-509 | the loop computes `Accumulate` for the bones and `ScaleWorld` for the world transforms |
| SdlLoader.Loader.CalculateWorld | example_loaders/sdl3/main.cpp:294-332 | the loop computes the pass in storage order |
| SdlLoader.Loader.Update | example_loaders/sdl3/main.cpp:488-513 | paused, nothing changes; playing, time advances and wraps with `fmod` past the duration, the tracks are added into the bones and the world transforms are recomputed |
| SdlLoader.Loader.Play | example_loaders/sdl3/main.cpp:570 | playback starts |
| SdlLoader.Loader.Pause | example_loaders/sdl3/main.cpp:571 | playback stops |
| SdlLoader.Loader.Stop | example_loaders/sdl3/main.cpp:572 | playback stops and the time returns to 0 |
| SdlLoader.Loader.SetTime | example_loaders/sdl3/main.cpp:573 | the time is clamped to [0, duration], not truncated |
| FileCommon.ParseLayer | pyspine/file_common.py:75-76 | a layer name parses exactly when it is one of the three values, and gives back the layer of that name |
| FileCommon.ParsePoint | pyspine/file_common.py:88-89 | an attachment name parses exactly when it is one of the two values, and gives back the point of that name |
| FileCommon.EnumValuesRoundTrip | pyspine/file_common.py:47-50 | every enum member is recovered from the value the encoder writes for it |
| FileCommon.EncodeDefault | pyspine/file_common.py:47-50 | only enum values are encoded by the hook, each as its value; anything else raises |
| FileCommon.PlainValue | pyspine/file_common.py:59-63 | the stored value is always JSON-plain: an enum becomes its value, anything else is kept |
| FileCommon.ValueDict | pyspine/file_common.py:56-64 | the dictionary has exactly the fields' keys, and every value is plain |
| FileCommon.ValueDictAt | pyspine/file_common.py:56-64 | the value under a key is that of its last pair |
| FileCommon.EnumDictFactory | pyspine/file_common.py:56-64 | the loop builds `ValueDict`, with exactly the fields' keys |
| FileCommon.SerializeDataclassDict | pyspine/file_common.py:53-66 | every record becomes the plain dictionary of its fields under the same key |
| FileCommon.LayerStep | pyspine/file_common.py:73-83 | a string layer is parsed, an unknown one or a missing layer becomes MIDDLE, a non-string is left alone; no other key changes |
| FileCommon.PointStep | pyspine/file_common.py:86-97 | the same for the attachment point, with END as the fallback |
| FileCommon.OrderStep | pyspine/file_common.py:99-101 | a missing layer order becomes 0; nothing else changes |
| FileCommon.MakeBone | pyspine/data_classes.py:61-75 | a bone is built only from known keywords including the required ones; absent optional fields take their defaults (`children` `[]` also when null), present enum and order fields are the bone's own |
| FileCommon.DeserializeBoneData | pyspine/file_common.py:69-102 | the record gains the three fields, a missing or unknown layer gives MIDDLE, a missing or unknown attachment point END, a missing order 0, and the bone is built from the rewritten record |
| FileCommon.SerializedBoneKeys | pyspine/file_common.py:53-66 | the serialised dictionary of a bone has exactly the bone's field names as keys |
| FileCommon.SerializedScalars | pyspine/file_common.py:53-66 | the serialised name, position, length and angle are the bone's own |
| FileCommon.SerializedLinks | pyspine/file_common.py:53-66 | the serialised parent, attachment point, children, layer and order are the bone's own, enums as their values |
| FileCommon.SerializedBone | pyspine/file_common.py:53-66 | the serialised dictionary holds the bone's plain values key by key |
| FileCommon.StepsMakeReady | pyspine/file_common.py:69-101 | the three rewriting steps turn a bone's plain values back into the bone's typed fields |
| FileCommon.MakeReadyBone | pyspine/data_classes.py:61-75 | the constructor rebuilds the bone from its typed fields |
| FileCommon.ReadBack | pyspine/file_common.py:69-102 | reading back a dictionary holding a bone's plain values gives that bone |
| FileCommon.BoneRoundTrip | pyspine/file_common.py:53-102 | a bone serialised and read back (the JSON text keeping every plain value) is the same bone |
| Viewport.Clamp | pyspine/old_pyspine/viewport_common.py:24 | the zoom is clamped into the bounds and kept when already inside |
| Viewport.ViewportManager.constructor | pyspine/old_pyspine/viewport_common.py:2-6 | the view starts at the given offset and zoom, not dragging, with the last mouse position at the origin |
| Viewport.ViewportManager.ScreenToViewport | pyspine/old_pyspine/viewport_common.py:8-12 | a screen point maps to the world point that the zoom carries back to it past the offset and toolbar; a zero zoom raises |
| Viewport.ViewportManager.ViewportToScreen | pyspine/old_pyspine/viewport_common.py:14-18 | a world point maps to its zoomed position past the offset and toolbar |
| Viewport.ViewportManager.ScreenRoundTrip | pyspine/old_pyspine/viewport_common.py:8-18 | screen to world and back is the identity, for any toolbar height, whenever the zoom is not zero |
| Viewport.ViewportManager.WorldRoundTrip | pyspine/old_pyspine/viewport_common.py:8-18 | world to screen and back is the identity whenever the zoom is not zero |
| Viewport.ViewportManager.HandleZoom | pyspine/old_pyspine/viewport_common.py:20-28 | the zoom is multiplied by 1.1 or 0.9 and clamped to [0.1, 5.0], and the world point under the mouse stays under it; from a zero zoom it raises after storing the new zoom |
| Viewport.ViewportManager.HandleDrag | pyspine/old_pyspine/viewport_common.py:30-36 | while dragging, the offset moves by the mouse's movement since the last recorded position; otherwise nothing changes |
| Viewport.ViewportManager.ResetViewport | pyspine/old_pyspine/viewport_common.py:38-41 | the offset and zoom return to the given defaults |
| Viewport.FixedUnderMouse | pyspine/old_pyspine/viewport_common.py:26-28 | with the new offset, the world coordinate under the mouse is the same at the new zoom as at the old one |
| AttachmentEditor.InstanceId | pyspine/PySpine_SpriteAttachmentEditor.py:55 | the new id is the sprite's name, `_`, and one more than the number of instances of that sprite |
| AttachmentEditor.InstanceIdCollides | pyspine/PySpine_SpriteAttachmentEditor.py:55 | with only `s_2` left of sprite `s`, the next id is `s_2` again, an id already in use |
| AttachmentEditor.FreshInstanceId | pyspine/PySpine_SpriteAttachmentEditor.py:55 | the corrected id has the same `name_N` form and is never an id already in use |
| AttachmentEditor.WorldPosition | pyspine/PySpine_SpriteAttachmentEditor.py:79-102 | a position exists exactly for a known instance attached to a known bone, and is the bone's START or END point plus the instance's offset |
| AttachmentEditor.SpriteAttachmentProject.constructor | pyspine/PySpine_SpriteAttachmentEditor.py:46-51 | the project starts with no sprites, bones or instances |
| AttachmentEditor.SpriteAttachmentProject.CreateSpriteInstance | pyspine/PySpine_SpriteAttachmentEditor.py:53-57 | the new record has that id, no bone, zero offsets and rotation, scale 1 and START attachment |
| AttachmentEditor.SpriteAttachmentProject.AttachSpriteInstanceToBone | pyspine/PySpine_SpriteAttachmentEditor.py:59-72 | nothing changes unless both the instance and the bone exist; then only that instance changes, taking the bone and point with its offset reset to (0, 0) |
| AttachmentEditor.SpriteAttachmentProject.SpriteInstancesForBone | pyspine/PySpine_SpriteAttachmentEditor.py:74-77 | exactly the ids of instances naming the bone, each once, in dictionary order |
| AttachmentEditor.SpriteAttachmentProject.SpriteWorldPosition | pyspine/PySpine_SpriteAttachmentEditor.py:79-102 | the project's own instances and bones give the position `WorldPosition` states |
| AttachmentEditor.RotateEdit | pyspine/PySpine_SpriteAttachmentEditor.py:669-680 | a command exists exactly for a selected, known instance; it sets the rotation to (old + degrees) mod 360, which lies in [0, 360), and its undo restores the instances |
| AttachmentEditor.ResetRotationEdit | pyspine/PySpine_SpriteAttachmentEditor.py:682-693 | a command exists exactly when the selected instance's rotation exceeds 0.1 in size; it sets the rotation to 0 and its undo restores the instances |
| AttachmentEditor.ToggleEdit | pyspine/PySpine_SpriteAttachmentEditor.py:301-316 | a command exists exactly for a selected instance that has a bone; it swaps START and END and its undo restores the instances |
| AttachmentEditor.DropEdit | pyspine/PySpine_SpriteAttachmentEditor.py:488-499 | a command exists exactly when the bone or the point differs; it sets both and its undo restores the instances |
| AttachmentEditor.OperationRecord | pyspine/PySpine_SpriteAttachmentEditor.py:236-274 | a finished move is recorded exactly when an offset moved by more than 0.1, a finished rotation exactly when the rotation did; the record's undo restores the start value and its redo the current one |
| AttachmentEditor.ElementsAt | pyspine/PySpine_SpriteAttachmentEditor.py:541-558 | the overlap list holds at most the sprite under the cursor, first, then one bone entry: its attachment point when one is hit, else its body |
| AttachmentEditor.SpriteAttachmentEditor.constructor | pyspine/PySpine_SpriteAttachmentEditor.py:153-214 | the editor starts with empty history and no selection, overlap list or operation |
| AttachmentEditor.SpriteAttachmentEditor.Issue | pyspine/undo_redo_common.py:36-55 | a command is applied, pushed on the undo stack (trimmed to 50) and the redo stack cleared; no command changes nothing |
| AttachmentEditor.SpriteAttachmentEditor.RotateSelected | pyspine/PySpine_SpriteAttachmentEditor.py:669-680 | the selected instance's rotation becomes (old + degrees) mod 360, in [0, 360); without a selection nothing changes |
| AttachmentEditor.SpriteAttachmentEditor.ResetRotation | pyspine/PySpine_SpriteAttachmentEditor.py:682-693 | the selected instance's rotation becomes 0 when it exceeded 0.1 in size; otherwise nothing changes |
| AttachmentEditor.SpriteAttachmentEditor.ToggleAttachmentPoint | pyspine/PySpine_SpriteAttachmentEditor.py:301-316 | the selected attached instance swaps START and END; otherwise neither the instances nor the history change |
| AttachmentEditor.SpriteAttachmentEditor.DeleteSelected | pyspine/PySpine_SpriteAttachmentEditor.py:899-907 | the selected instance is removed through a delete command whose undo restores it, and the selection is cleared |
| AttachmentEditor.SpriteAttachmentEditor.CycleSelection | pyspine/PySpine_SpriteAttachmentEditor.py:282-299 | with more than one overlapping element the index advances cyclically and selects that sprite or bone, clearing the other kind; otherwise nothing changes |
| AttachmentEditor.SpriteAttachmentEditor.CreateInstanceAt | pyspine/PySpine_SpriteAttachmentEditor.py:807-848 | with a sprite type chosen and a bone hit, only a new instance is added, under an unused id, attached to that bone at the hit point (START on the body), with its offset putting its origin at the click; otherwise nothing changes (`CreatedAt`) |
| AttachmentEditor.SpriteAttachmentEditor.AddAttached | pyspine/PySpine_SpriteAttachmentEditor.py:820-843 | only the new id is added, other instances untouched; it holds the sprite, the bone, the attachment point and the offset given; its create and then its attach record end an undo stack trimmed to 50 at each step, and redo is emptied |
| AttachmentEditor.SpriteAttachmentEditor.SelectAt | pyspine/PySpine_SpriteAttachmentEditor.py:560-600 | a repeated click on the same list advances the cycle, any other click starts it at 0; a sprite is selected, its drag started from its offset and the grab offset taken from its world position (kept when it has none), or a bone is selected |
| AttachmentEditor.SpriteAttachmentEditor.AdvanceCycle | pyspine/PySpine_SpriteAttachmentEditor.py:561-570 | the overlap list becomes the new one; a click again on the same list moves the index one on, wrapping to 0, any other click sets it to 0, and the chosen index is in range |
| AttachmentEditor.SpriteAttachmentEditor.TakeHold | pyspine/PySpine_SpriteAttachmentEditor.py:575-588 | the sprite alone is selected (no bone), its drag starts with its current offset saved, and the grab offset is `GrabOffset` of the click |
| AttachmentEditor.GrabOffset | pyspine/PySpine_SpriteAttachmentEditor.py:586-588 | added to the sprite's world position the grab offset gives the click; a sprite without a world position keeps the previous offset |
| AttachmentEditor.SpriteAttachmentEditor.HandleViewportClick | pyspine/PySpine_SpriteAttachmentEditor.py:528-610 | the click is remembered; on elements it selects as `SelectAt` says without changing the instances; on empty space with a sprite type it creates as `CreatedAt` states, keeping the overlap list; with none it clears the selection and the overlap list |
| AttachmentEditor.SpriteAttachmentEditor.CompleteCurrentOperation | pyspine/PySpine_SpriteAttachmentEditor.py:236-280 | the instances are kept; a finished operation on a known instance ends, and its record (when there is one) is pushed unapplied with the redo stack cleared |
| AttachmentEditor.SpriteAttachmentEditor.CompleteHierarchyDrag | pyspine/PySpine_SpriteAttachmentEditor.py:483-503 | dropping a known sprite on a bone changes it only when the bone or point differs; then it is attached there with its offset reset to (0, 0) |
| AttachmentEditor.CreatedAsWritten | pyspine/PySpine_SpriteAttachmentEditor.py:816-842 | as written, the caller's instance gets the bone, point and offset, while the stored dictionary gains the new id |
| AttachmentEditor.CreatedAsWrittenUnattached | pyspine/PySpine_SpriteAttachmentEditor.py:816-842 | as written, the stored instance has no bone and offset (0, 0), differing from the caller's object |
| LegacyAttachmentEditor.NextSpriteInstanceId | pyspine/old_pyspine/attachment_editor.py:572-576 | the new id is the sprite's name, `_`, and one more than the number of stored instances of that sprite |
| LegacyAttachmentEditor.CopySpriteInstance | pyspine/old_pyspine/attachment_editor.py:905-917 | every field is copied, with the rotation replaced exactly when one is given (0.0 included) |
| LegacyAttachmentEditor.ToggleAttachmentRecord | pyspine/old_pyspine/attachment_editor.py:820-852 | a record exists exactly for a selected, stored instance that has a bone; applied, it stores that instance with START and END swapped |
| LegacyAttachmentEditor.ToggleAutoAdjustRecord | pyspine/old_pyspine/attachment_editor.py:854-881 | a record exists exactly for a selected, stored instance; applied, it stores the instance with the flag negated |
| LegacyAttachmentEditor.RotateRecord | pyspine/old_pyspine/attachment_editor.py:883-903 | a record exists exactly for a selected, stored instance; applied, it stores the instance with rotation (old + degrees) mod 360, in [0, 360) |
| LegacyAttachmentEditor.DeleteRecord | pyspine/old_pyspine/attachment_editor.py:1108-1122 | a record exists exactly for a selected, stored instance; applied, it removes only that instance |
| LegacyAttachmentEditor.ToggleAttachmentTwice | pyspine/old_pyspine/attachment_editor.py:820-852 | toggling the attachment point twice gives back the store it started from |
| LegacyAttachmentEditor.ToggleAutoAdjustTwice | pyspine/old_pyspine/attachment_editor.py:854-881 | toggling auto-adjustment twice gives back the store it started from |
| LegacyAttachmentEditor.StrictLayerStep | pyspine/old_pyspine/attachment_editor.py:1091 | the layer step succeeds exactly for a missing layer, a layer value or a known layer name, and then changes only the layer |
| LegacyAttachmentEditor.StrictPointStep | pyspine/old_pyspine/attachment_editor.py:1092 | the attachment step succeeds exactly for a missing point, a point value or a known point name, changes only that key, and a missing point takes the default |
| LegacyAttachmentEditor.StrictAgreesWithLenient | pyspine/old_pyspine/attachment_editor.py:1090-1093 | wherever the strict steps succeed they agree with the lenient steps of the later loader |
| LegacyAttachmentEditor.LoadBone | pyspine/old_pyspine/attachment_editor.py:1090-1093 | a loaded bone parsed its layer strictly; a missing layer gives MIDDLE and a missing attachment point END |
| LegacyAttachmentEditor.InstanceStep | pyspine/old_pyspine/attachment_editor.py:1096-1102 | an instance record gains a strictly parsed attachment point (START when missing) and `auto_adjust_bone`, off when missing |
| LegacyAttachmentEditor.MakeInstance | pyspine/old_pyspine/attachment_editor.py:24-36 | an instance is built only from known keywords including `id` and `sprite_name`; given fields are its own, absent ones take the defaults (flag on, scale 1) |
| LegacyAttachmentEditor.LoadInstance | pyspine/old_pyspine/attachment_editor.py:1096-1104 | a loaded instance without the flag has it off, without an attachment point is at START, and a named point is the parsed one |

## Left out

- Drawing, event dispatch, pygame and pygame_gui widgets, panel layout and key tables. This includes `drawing_common.py`, `event_common.py` and `sprite_common.py`, which only draw or route events.
- File and image I/O: saving and loading JSON projects, auto-loading, the `Load*Command` classes, the loaders' file reading, images and SDL textures. The loaders' constructors receive the already-parsed bones, tracks, duration and frame rate.
- Trigonometry and square roots: a bone's END point (the `tip` parameter of `BonePlacement`), the loaders' child placement, rotated offsets, `combine_transforms`, `position_child_at_world_point`, point-to-line distances and every distance hit test. Each is a parameter of the member that needs it, so properties hold for whatever those functions compute. Placing a child on its parent's START point needs none of these, and `BonePlacement.Placed` computes it.
- BonePlacement.Follow: the walk over the children lists goes at most as many levels deep as there are bones. Every path without a repeated bone fits that bound. On children lists that loop, the source recurses until Python raises `RecursionError`, which the model does not reproduce.
- The auto-adjustment of a bone to its sprite (`auto_adjust_bone` in `old_pyspine/attachment_editor.py`). It is geometry on the bone's angle and length.
- Wall-clock time. `dt` and `now` are parameters.
- Floating point. Times and channels are `real`, so IEEE rounding is not modelled. Python's `int()` truncation and `%` on floats are written out where the source uses them.
- Python object identity. Commands that hold a reference to one record hold its key or index instead, and copies are values. The sprite-sheet clear finding below is the one place where the model reproduces a shared dictionary. The next three lines name the other places where sharing changes what happens.
- BoneEditor.BoneSheetEditor.ClearAllBones: the model does not share the `bones` dictionary between commands. In the source, `CreateBoneCommand` and `DeleteBoneCommand` keep the dictionary they were built with (bone_commands.py:10-44). `ClearAllBonesCommand.execute` empties that dictionary in place, and its `undo` installs a new copy (PySpine_BoneEditor.py:80-97). So on an empty sheet, create, clear, undo, undo leaves `bone_1` in the source, and delete, clear, undo, undo leaves the bone deleted. The model undoes each step.
- BoneEditor.BoneSheetEditor.UpdateHierarchyDrag: requires every parent chain to end (`Acyclic`), which `BoneSheetEditor.Valid()` does not carry. On a sheet whose parent links loop, for instance one loaded from such a file, the `while current.parent` walk of `_is_descendant` (PySpine_BoneEditor.py:698-710) keeps no visited set and never returns.
- BoneEditor.BoneSheetEditor.CompleteHierarchyDrag: requires that the dragged bone and the drop target are still stored. Undoing the dragged bone's creation mid-drag (Ctrl+Z, undo_redo_common.py:284) removes it, and then `self.bones[self.hierarchy_drag_bone]` (PySpine_BoneEditor.py:659-660) raises `KeyError` on release. The model has no such release.
- BoneEditor.BoneSheetEditor.HandleMouseUp: carries the same requires, so the `KeyError` release of `CompleteHierarchyDrag` is not modelled.
- BoneEditor.BoneSheetEditor.EndDrags: carries the same requires, for the same reason.
- SpriteSheetEditor.Editor.CompleteCurrentOperation: a selected sprite that is no longer stored counts as nothing selected, and the history is left untouched. In the source, `_complete_current_operation` reads `self.sprites[self.selected_sprite]` with no `in` test (PySpine_SpriteSheetEditor.py:216-221), so undoing a sprite's creation mid-drag makes the release raise `KeyError`.
- SpriteSheetEditor.Editor.MouseUp: inherits that. Where the source's release stops at the `KeyError` before any drag mode ends, the model ends them all.
- SpriteSheetEditor.Exec: the move, resize and origin commands name their sprite by key. In the source they hold the sprite object itself, while `CreateSpriteCommand.execute` and `DeleteSpriteCommand.undo` install fresh deep copies (sprite_commands.py:16-17, 37-39). So create, move, undo, undo, redo, redo leaves the sprite unmoved in the source, because the redone move changes an orphaned copy. Move, delete, undo, undo leaves the sprite at its moved position. The model restores each step.
- BonelessSpriteEditor.OperationRecord: the record of a finished drag holds the sprite's value. In the source, `create_operation_command` stores the live sprite object as `new_data` and pushes the record without a copy (boneless_sprite_editor.py:490-587), so a later drag of the same sprite changes that record as well. Move, move again, undo, undo, redo puts the sprite at the second move's position in the source and at the first move's position in the model. A sprite deleted mid-drag (for instance by undoing its creation) gives no record in the model, while `self.data_objects['sprites'][sprite_name]` (boneless_sprite_editor.py:497) raises `KeyError` in the source.
- `print` diagnostics, status messages, selection-feedback timers and onion-skin drawing.
- `UndoRedoMixin`: it only forwards to its `UndoRedoManager`, which the editors' models call directly.
- `copy_bone` in `old_pyspine/bone_editor.py`: a field-by-field copy is the identity on the value `Bone`.
- `AnimatorEditor.delete_selected` in `boneless_animate_editor.py`. It is the scene editor's deletion (`Scene.OldAnimator.DeleteSelected`) plus dropping the deleted instance's keyframes from the keyframe selection, which the model does not keep.
- `boneless_core_base.py` project loading, including the reset of `next_instance_index`. Scene setup entries that are not object dictionaries (palette reference, duration and fps) are also left out.
- UniversalEditor.Editor.Valid: an object type named "rename" is excluded. If an editor had such a dictionary, redoing a rename record would store the record's data in it instead of raising `KeyError`. No editor declares that type.
- Names.ParseNat: accepts only a non-empty run of ASCII digits. Python's `int()` also accepts a sign, surrounding whitespace, underscores between digits and other Unicode digits ("+2", " 2", "1_0"). The model sends those down the `ValueError` path.
- Names.NextFreeName: inherits the narrower parse of `ParseNat`. With the keys `bone_1` and `bone_ 2`, the source's `int()` (PySpine_BoneEditor.py:846, boneless_core_base.py:578) gives `bone_3`, and the model gives `bone_2`. Both names are fresh.
- BoneEditor.BoneSheetEditor.NextBoneName: the same narrower parse, through `Names.NextFreeName`.
- UniversalEditor.Editor.GetNextObjectName: the same narrower parse, through `Names.NextFreeName`.
- UniversalEditor.Strip: removes ASCII whitespace only: space, tab, line feed, carriage return, vertical tab and form feed. Python's `str.strip()` (boneless_core_base.py:352) also removes U+001C to U+001F, U+0085, U+00A0 and the other Unicode whitespace.
- UniversalEditor.LeadingSpaces: counts ASCII whitespace only, as `Strip` does.
- UniversalEditor.TrailingSpaces: counts ASCII whitespace only, as `Strip` does.
- BonelessSpriteEditor.Editor.Current: a selected id that is no longer stored counts as nothing current. In the source, the selection can keep such an id after a redo of a delete, and reading it raises `KeyError` (boneless_sprite_editor.py:309, 635).
- FileCommon.MakeBone: a field of the wrong kind, such as a string `x`, gives `None`. Python dataclasses do not check field types, so `Bone(**d)` (data_classes.py:61-75) stores such a value.
- LegacyAttachmentEditor.MakeInstance: a field of the wrong kind gives `None`, while `SpriteInstance(**d)` (old_pyspine/attachment_editor.py:24-36) stores it.
- BonelessSpriteEditor.LoadSprite: a non-string `name`, or another field of the wrong kind, gives `None`, while `SpriteRect(**d)` (boneless_sprite_editor.py:715-739) stores it.
- The module `core_base` that the old editors import (old_pyspine/bone_editor.py:8 and its siblings) is not part of this model. Where those editors use its history or its `rename_object`, the model follows `boneless_core_base.py` (`UniversalEditor`, `LegacyBoneEditor.Rekeyed`).
- Scene.SceneEditor.Selected: an unknown selected id counts as "nothing selected". In the source the handlers raise `KeyError` on it before changing anything, so the state is the same.
- PygameLoader.Loader.constructor: requires a positive file duration, which the clock invariant `0 <= current_time <= duration` needs. With a duration of zero or less, the source resets the time to 0 on every update.
- SdlLoader.Loader.constructor: requires a positive file duration, for the same invariant. With a zero duration, the source's `fmod` has no defined result.
- PygameLoader.Loader.UpdateBoneTransforms: requires every parent chain to end. On a file whose parent links loop, `process_bone` recurses without end (`PygameLoader.MutualParentsNotGrounded` shows such a file).
- BonelessAnimator.Animator.Update: requires the clock reading not to go backwards.

## Findings

| source | as written | input that shows it | evidently intended | confidence | as-written member | corrected member |
|---|---|---|---|---|---|---|
| pyspine/animation_commands.py:17-23 | `AddKeyframeCommand.undo` removes the first keyframe within 0.01 of the time for that bone | a track that already has a keyframe at the added time | undo removes the keyframe that execute inserted | not executed | AnimationCommands.AddKeyframeUndoRemovesOlder | AnimationCommands.AddKeyframeFixedRoundTrip |
| pyspine/animation_commands.py:314-320 | undo deletes the created keyframe only when the old transform is exactly (0, 0, 0, 0), but a bone with no keyframe records `BoneTransform()` = (0, 0, 0, 1) | a drag on a bone with no keyframes, then undo | undo removes the keyframe the drag created | not executed | AnimationCommands.BoneManipulationUndoKeepsCreated | AnimationCommands.ManipulationFixedRoundTrip |
| pyspine/PySpine_AnimationEditor.py:678-679 | step back truncates the new time to a whole second | at 2 s and 30 fps, step back gives 1 s | step back moves one frame, as the older editor's `step_backward` does | not executed | AnimationEditor.StepBackTruncatedSkips | AnimationEditor.StepBackUndoesStepForward |
| pyspine/PySpine_AnimationEditor.py:410 | a keyframe drag is recorded only when its start time is truthy | a drag of a keyframe at 0.0 to 2.0 | record every drag that moved by more than 0.01 | not executed | AnimationEditor.KeyframeMoveFromZeroIsLost | AnimationEditor.KeyframeMoveRecordedFixedMeans |
| pyspine/boneless_animate_editor.py:349-354 | `step_frame` truncates the new time to a whole second | at 1 s of a 5 s animation at 30 fps, a step forward stays at 1 s | the time moves one frame, clamped to [0, duration] | not executed | BonelessAnimator.StepFrameTimeStuck | BonelessAnimator.StepFrameTimeFixedMoves |
| pyspine/PySpine_SpriteAttachmentEditor.py:55 | a new instance id is the sprite name plus the number of existing instances of that sprite, plus one | only `s_2` is left of sprite `s`, so the new id is `s_2` again | an id not already in use | not executed | AttachmentEditor.InstanceIdCollides | AttachmentEditor.FreshInstanceId |
| pyspine/PySpine_SpriteAttachmentEditor.py:816-842 | the create command stores a copy, then the attach command and the offset change the caller's object | any click that creates an instance on a bone | the stored instance is attached, with its origin at the click | not executed | AttachmentEditor.CreatedAsWrittenUnattached | AttachmentEditor.SpriteAttachmentEditor.CreateInstanceAt |
| example_loaders/sdl3/main.cpp:189-199 | with no enclosing pair, the track returns its last keyframe | a time before the first of two or more keyframes | clamp to the first keyframe before the range | not executed | SdlLoader.SdlBeforeFirstGivesLast | SdlLoader.SdlEvaluateFixedClamps |
| pyspine/old_pyspine/boneless_editor.py:1565-1566 | parenting the selection to the instance under the cursor skips the cycle check | parent `inst_0` to its own child `inst_1` | refuse a re-link that closes a cycle, as `would_create_cycle` (old_pyspine/boneless_editor.py:784-791) checks | not executed | Scene.ParentToCursorMakesCycle | Scene.OldAnimator.ParentSelectedToCursorFixed |
| pyspine/boneless_core_base.py:896-907 | `redo` re-runs `execute_command`, which empties the rest of the redo stack; a rename record raises `KeyError` and is lost | undo twice, then redo twice; or undo a rename, then redo | redo re-applies the record and keeps the other undone records | not executed | UniversalEditor.Editor.Redo | UniversalEditor.Editor.RedoFixed |
| pyspine/PySpine_SpriteSheetEditor.py:69-86 | the clear's undo installs a new dictionary, while the create command keeps deleting from the old one | on an empty editor: create, clear, undo, undo; "sprite_1" is still there | undo restores the editor step by step | not executed | SpriteSheetEditor.ClearUndoKeepsCreated | SpriteSheetEditor.ClearUndoThenCreateUndo |
| pyspine/old_pyspine/NewEditor_SpriteSheet.py:517-525 | a width or height edit builds `ResizeSpriteCommand` from (width, height) pairs, and the command unpacks four values | any width or height edit in the property panel | resize the sprite, keeping its position | not executed | LegacySpriteSheetEditor.SizePropertyRaises | LegacySpriteSheetEditor.SizeEdit |
