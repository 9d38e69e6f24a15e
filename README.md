# Screen annotator: drag lifecycle and render sync

This project models the core of a small Bevy application. On a transparent window,
the user presses the left mouse button, drags and releases it. Each press spawns a
rectangle annotation, and each frame redraws every annotation as a green sprite.

The model has three modules:

- `Geometry` (geometry.dfy) covers points and the `Annotation::Rect { start, end }` record.
  It also covers the normalisation of a record into a sprite (`SpriteOf`), using a
  componentwise min for the corner and max minus min for the size. `Render` maps a
  store of records to its sprites.
- `Lifecycle` (lifecycle.dfy) gives the drag systems as pure values.
  - A `World` is the annotation store plus the optional `DragInProgress` resource.
    `None` is Idle and `Some` is Dragging.
  - `Apply` gives the effect of one press, move or release.
  - `Run` applies a sequence of events.
  - `FrameEvents` lists the events of one frame in schedule order.
  - The lemmas follow the world over whole event sequences: the number of records,
    the fixed `start` of each record, and records that are left alone.
- `Systems` (systems.dfy) holds the class `Annotator`. Its fields `store`, `drag` and
  `sprites` are updated in place by one method per Bevy system: `StartDrag`, `Drag`,
  `EndDrag`, `DestroySprites` and `CreateSprites`. `RunFrame` runs one whole frame.
  - Each drag method's new state is `Apply` of the old state.
  - Render sync leaves exactly `Render(store)` on screen.
  - The class invariant `Valid()` (`Lifecycle.DragInStore`) says that while
    Dragging, the drag's entity names a record of the store. This is why the
    `.unwrap()` in the move system never fails. The index `store[id]` in `Drag` is
    checked against it.

A record's entity is its index in `store`. Records are never despawned, so an index
identifies a record for its whole life. The cursor position, together with the
camera's viewport-to-world mapping, is one `Option<Point>` argument. `None` means
"no cursor position, or no world point for it". Coordinates are unbounded integers.

A press is meant to start a drag only while Idle, but the press system does not
check that no drag is in progress. The model follows the code here:

- A press while Dragging spawns a new record and moves the drag resource onto it.
  With every command taking effect at once (see "## Left out"), the old record keeps
  its last `end`, and the invariant still holds. In the source, the drag resource is
  replaced only when the frame's commands are applied, so the move system of that
  same frame still writes the press point into the old record's `end`.
- The size of a sprite is max minus min per axis, which equals `|end - start|`
  per axis.

## Model

| member | source | states |
|---|---|---|
| Geometry.SpriteOf | src/main.rs:110-122 | The sprite's corner is the smaller endpoint coordinate on each axis. Corner plus size is the larger one. So the size is never negative and the sprite is the tightest box around both endpoints. |
| Geometry.SpriteSymmetric | src/main.rs:111-112 | Swapping `start` and `end` gives the same sprite, so the drag direction does not matter. |
| Geometry.SpriteDegenerate | src/main.rs:111-118 | A record with `start == end` gives a sprite of size (0, 0) at that point. |
| Geometry.SpriteOfBackwardDrag | src/main.rs:111-118 | A drag from (10, 10) to (2, 6) is drawn at (2, 6) with size (8, 4). |
| Geometry.SpriteCoversRect | src/main.rs:111-122 | A point is inside the sprite exactly when it lies between `start` and `end` on both axes. |
| Geometry.Render | src/main.rs:107-130 | One sprite per record, in store order: sprite i is `SpriteOf(store[i])`. |
| Geometry.RenderSnoc | src/main.rs:108-126 | Adding one record adds exactly its sprite at the end. |
| Geometry.RenderMultiset | src/main.rs:108 | Two stores that hold the same records in any order give the same multiset of sprites. So the query's iteration order does not change what is drawn. |
| Lifecycle.Apply | src/main.rs:47-91 | Each event keeps the drag-in-store invariant. The store only grows, by at most one. No record's `start` changes. Only the dragged record can change. A new drag always targets the record just spawned. |
| Lifecycle.Run | src/main.rs:15-22 | Any sequence of press, move and release systems keeps the invariant and never shrinks the store. |
| Lifecycle.FrameEvents | src/main.rs:16-21 | One frame spawns exactly one record if the button was just pressed with a world point, and none otherwise. |
| Lifecycle.RunAppend | src/main.rs:15-22 | Running systems one after another is running the concatenated event sequence. |
| Lifecycle.RunCountsSpawns | src/main.rs:57-62 | After any event sequence the store has grown by exactly the number of presses that had a world point. |
| Lifecycle.RunKeepsStarts | src/main.rs:80-85 | A spawned record stays in the store, and its `start` never changes, whatever events follow. |
| Lifecycle.IdleWithoutSpawnUnchanged | src/main.rs:17-19 | While Idle, moves and releases change nothing. Without a successful press the world stays exactly as it is. |
| Lifecycle.UntargetedRecordUnchanged | src/main.rs:63-66 | A record the drag does not target stays unchanged through any later events. This includes every record whose drag was released. |
| Lifecycle.PressMoveRelease | src/main.rs:47-91 | Press at (0,0), moves to (5,0), (5,5) and (3,5), then release. The result is one record `Rect((0,0),(3,5))`, no drag, and one sprite at (0,0) of size (3,5). |
| Systems.Annotator.StartDrag | src/main.rs:47-67 | With a world point p, appends `Rect(p, p)` and sets the drag to `(origin p, entity = new index)`. Without one, store and drag are unchanged. Keeps the invariant. |
| Systems.Annotator.Drag | src/main.rs:69-86 | With a world point p, sets the dragged record's `end` to p. Its `start` and every other record are unchanged. Without one, nothing changes. The lookup always succeeds. |
| Systems.Annotator.EndDrag | src/main.rs:88-91 | Removes the drag resource and leaves every record exactly as it was. |
| Systems.Annotator.DestroySprites | src/main.rs:96-105 | Every sprite of the previous frame is despawned, one by one. |
| Systems.Annotator.CreateSprites | src/main.rs:107-130 | Appends exactly `Render(store)`: one normalised sprite per record. |
| Systems.Annotator.SyncSprites | src/main.rs:96-130 | After teardown and rebuild, the sprites on screen are exactly `Render(store)`. None from before is left. |
| Systems.Annotator.SyncSpritesTwice | src/main.rs:96-130 | Running render sync twice with no store change gives the same sprites both times. |
| Systems.Annotator.RunFrame | src/main.rs:15-23 | One frame (press if just pressed, move if Dragging, release if just released, then render sync) gives `Run` of the frame's events. It keeps the invariant, grows the store by one exactly on a press with a world point, and leaves `Render(store)` on screen. |

## Left out

- App bootstrap, window configuration and plugins (src/main.rs:3-25), and the camera spawned in `setup` (src/main.rs:38-45): these are platform set-up with no state of the core.
- `cursor_position` and `viewport_to_world_2d`: foreign library calls. Each becomes the `Option<Point>` argument.
- The `.single()` lookups of window and camera: the model assumes exactly one of each. With zero or several, the source panics, and that case is not modelled.
- Bevy scheduling and deferred `Commands`: a frame is modelled as the sequential calls press, move, release, destroy, create, and every spawn, despawn and resource change takes effect at once. `RunFrame`'s `sprites == Render(store)` holds for this model frame. In the source the drag chain and the render chain (src/main.rs:15-23) are not ordered relative to each other, and spawns are deferred, so a record pressed in one frame is first drawn in the next frame.
- Deferred `insert_resource` on a press while Dragging: in the source the move system of that frame still sees the old drag resource and sets the old record's `end` to the press point; the model leaves the old record as it was.
- Entity allocation: Bevy hands out generational entity ids shared with sprites and the camera. The model numbers annotation records by store index instead. Annotations are never despawned, so the two identify the same records.
- `println!` logging and the unused counter `i` in `destroy_annotation_sprites`.
- Sprite colour, the bottom-left anchor and the z translation. Only the corner and the size are modelled.
- `f32` arithmetic: coordinates are unbounded integers, with no rounding or NaN.
