/** The drag lifecycle as values: the annotation store and the optional drag
    resource form a `World`, and each pointer event the schedule can deliver
    (a press, a move, a release) maps one world to the next. The class in
    module Systems updates its fields exactly as `Apply` says; the lemmas
    here follow the world over whole sequences of events. */
module Lifecycle {
  import opened Geometry

  datatype Option<T> = None | Some(value: T)

  /** The drag resource: the world point where the drag began and the entity
      (an index into the store) of the record the drag edits. */
  datatype DragInProgress = DragInProgress(origin: Point, entity: nat)

  /** Every annotation record ever spawned, in spawn order (a record's entity
      is its index), and the drag resource if one exists. `drag == None` is
      the Idle state, `drag == Some(_)` the Dragging state. */
  datatype World = World(store: seq<Annotation>, drag: Option<DragInProgress>)

  /** What one run of a drag system sees. `None` stands for "no cursor
      position, or the camera cannot map it to the world". */
  datatype Event = Press(at: Option<Point>) | Move(at: Option<Point>) | Release

  /** The invariant the lookup in the move system relies on: while Dragging,
      the drag's entity names a record of the store, and the drag's origin is
      that record's start. */
  predicate DragInStore(w: World)
  {
    w.drag.Some? ==>
      w.drag.value.entity < |w.store| && w.store[w.drag.value.entity].start == w.drag.value.origin
  }

  /** One event applied to the world. A press with a point spawns a record
      `Rect(p, p)` and (re)places the drag resource on it, whether or not a
      drag was already in progress; a move with a point while Dragging
      overwrites the dragged record's `end`; a release drops the drag
      resource. Everything else leaves the world as it is. */
  function Apply(w: World, e: Event): (r: World)
    requires DragInStore(w)
    ensures DragInStore(r)
    ensures |w.store| <= |r.store| <= |w.store| + 1
    ensures forall i :: 0 <= i < |w.store| ==> r.store[i].start == w.store[i].start
    ensures forall i :: 0 <= i < |w.store| && r.store[i] != w.store[i] ==>
              w.drag.Some? && i == w.drag.value.entity
    ensures r.drag.Some? ==> r.drag == w.drag || r.drag.value.entity == |w.store|
  {
    match e
    case Press(None) => w
    case Press(Some(p)) => World(w.store + [Rect(p, p)], Some(DragInProgress(p, |w.store|)))
    case Move(None) => w
    case Move(Some(p)) =>
      if w.drag.None? then w
      else
        var id := w.drag.value.entity;
        World(w.store[id := w.store[id].(end := p)], w.drag)
    case Release => World(w.store, None)
  }

  /** The world after a sequence of events, one after another. */
  function Run(w: World, events: seq<Event>): (r: World)
    requires DragInStore(w)
    ensures DragInStore(r)
    ensures |w.store| <= |r.store|
    decreases |events|
  {
    if events == [] then w else Run(Apply(w, events[0]), events[1..])
  }

  /** Number of presses in `events` that came with a world point. */
  function Spawns(events: seq<Event>): (n: nat)
  {
    if events == [] then 0
    else (if events[0].Press? && events[0].at.Some? then 1 else 0) + Spawns(events[1..])
  }

  /** The events of one frame, in schedule order: the press system runs when
      the button was just pressed, the move system runs every frame (and only
      acts while Dragging), the release system runs when the button was just
      released. The cursor is read once per frame. */
  function FrameEvents(pressed: bool, released: bool, cursor: Option<Point>): (events: seq<Event>)
    ensures Spawns(events) == if pressed && cursor.Some? then 1 else 0
  {
    var press := if pressed then [Press(cursor)] else [];
    var release := if released then [Release] else [];
    assert Spawns([Move(cursor)] + release) == 0 by {
      assert ([Move(cursor)] + release)[1..] == release;
    }
    assert (press + [Move(cursor)] + release) == press + ([Move(cursor)] + release);
    SpawnsAppend(press, [Move(cursor)] + release);
    press + [Move(cursor)] + release
  }

  /** Spawn counts add up over concatenated event sequences. */
  lemma {:induction false} SpawnsAppend(a: seq<Event>, b: seq<Event>)
    ensures Spawns(a + b) == Spawns(a) + Spawns(b)
    decreases |a|
  {
    if a != [] {
      assert (a + b)[1..] == a[1..] + b;
      SpawnsAppend(a[1..], b);
    } else {
      assert a + b == b;
    }
  }

  /** Running two sequences one after the other is running their
      concatenation. */
  lemma {:induction false} RunAppend(w: World, a: seq<Event>, b: seq<Event>)
    requires DragInStore(w)
    ensures Run(w, a + b) == Run(Run(w, a), b)
    decreases |a|
  {
    if a != [] {
      assert (a + b)[1..] == a[1..] + b;
      assert (a + b)[0] == a[0];
      RunAppend(Apply(w, a[0]), a[1..], b);
    } else {
      assert a + b == b;
    }
  }

  /** Records are never removed: after any sequence of events the store holds
      one more record per press that had a world point, and no others. */
  lemma {:induction false} RunCountsSpawns(w: World, events: seq<Event>)
    requires DragInStore(w)
    ensures |Run(w, events).store| == |w.store| + Spawns(events)
    decreases |events|
  {
    if events != [] {
      RunCountsSpawns(Apply(w, events[0]), events[1..]);
    }
  }

  /** A record's `start` never changes once it is spawned, whatever events
      follow. */
  lemma {:induction false} RunKeepsStarts(w: World, events: seq<Event>, i: nat)
    requires DragInStore(w)
    requires i < |w.store|
    ensures i < |Run(w, events).store| && Run(w, events).store[i].start == w.store[i].start
    decreases |events|
  {
    if events != [] {
      RunKeepsStarts(Apply(w, events[0]), events[1..], i);
    }
  }

  /** While Idle, events without a press that has a world point change
      nothing: moves are ignored and releases are no-ops. */
  lemma {:induction false} IdleWithoutSpawnUnchanged(w: World, events: seq<Event>)
    requires DragInStore(w) && w.drag.None?
    requires Spawns(events) == 0
    ensures Run(w, events) == w
    decreases |events|
  {
    if events != [] {
      assert Apply(w, events[0]) == w;
      IdleWithoutSpawnUnchanged(w, events[1..]);
    }
  }

  /** Only the record the drag targets can change, and a press only ever
      targets the record it spawns: a record the drag does not target (in
      particular every record once its drag is released) stays exactly as it
      is through any events that follow. */
  lemma {:induction false} UntargetedRecordUnchanged(w: World, events: seq<Event>, i: nat)
    requires DragInStore(w)
    requires i < |w.store|
    requires w.drag.None? || w.drag.value.entity != i
    ensures Run(w, events).store[i] == w.store[i]
    decreases |events|
  {
    if events != [] {
      var next := Apply(w, events[0]);
      assert next.store[i] == w.store[i];
      assert next.drag.None? || next.drag.value.entity != i;
      UntargetedRecordUnchanged(next, events[1..], i);
      RunKeepsStarts(next, events[1..], i);
    }
  }

  /** A press, three moves and a release: the record keeps the press point as
      its start and the last move point as its end, the drag is gone, and the
      record renders as the box between those two points. */
  lemma PressMoveRelease()
    ensures var w := Run(World([], None),
                         [Press(Some(Point(0, 0))), Move(Some(Point(5, 0))), Move(Some(Point(5, 5))),
                          Move(Some(Point(3, 5))), Release]);
            w == World([Rect(Point(0, 0), Point(3, 5))], None) &&
            Render(w.store) == [Sprite(Point(0, 0), Point(3, 5))]
  {
  }
}
