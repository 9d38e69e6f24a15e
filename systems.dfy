/** The annotator's frame state as it is updated in place: the annotation
    records, the drag resource and the sprites on screen, with one method per
    system of the schedule. Each drag system's new state is `Apply` of the
    old one (module Lifecycle), and render sync leaves exactly `Render` of the
    store on screen (module Geometry). */
module Systems {
  import opened Geometry
  import opened Lifecycle

  class Annotator {
    /** Every annotation record spawned so far; a record's entity is its index. */
    var store: seq<Annotation>
    /** The drag resource, present only while Dragging. */
    var drag: Option<DragInProgress>
    /** The sprites emitted for the annotations, one per record. */
    var sprites: seq<Sprite>

    /** The store and the drag resource as a value. */
    function State(): (w: World)
      reads this
    {
      World(store, drag)
    }

    ghost predicate Valid()
      reads this
    {
      DragInStore(State())
    }

    /** Start-up: no records, no drag, nothing on screen. */
    constructor ()
      ensures Valid()
      ensures store == [] && drag == None && sprites == []
    {
      store, drag, sprites := [], None, [];
    }

    /** The press system. With no world point it returns at once; otherwise it
        spawns `Rect(p, p)` and inserts the drag resource for it, replacing any
        drag already in progress. */
    method StartDrag(at: Option<Point>)
      requires Valid()
      modifies this`store, this`drag
      ensures Valid()
      ensures State() == Apply(old(State()), Press(at))
      ensures at.None? ==> store == old(store) && drag == old(drag)
      ensures at.Some? ==>
        store == old(store) + [Rect(at.value, at.value)] &&
        drag == Some(DragInProgress(at.value, |old(store)|))
    {
      if at.None? {
        return;
      }
      var p := at.value;
      var entity := |store|;
      store := store + [Rect(p, p)];
      drag := Some(DragInProgress(p, entity));
    }

    /** The move system; it only runs while the drag resource exists. With no
        world point it returns at once; otherwise it looks up the dragged
        record, which `Valid()` guarantees is in the store, and overwrites its
        `end`. */
    method Drag(at: Option<Point>)
      requires Valid() && drag.Some?
      modifies this`store
      ensures Valid()
      ensures State() == Apply(old(State()), Move(at))
      ensures |store| == |old(store)|
      ensures at.None? ==> store == old(store)
      ensures at.Some? ==>
        var id := drag.value.entity;
        store[id] == Rect(old(store)[id].start, at.value) &&
        forall i :: 0 <= i < |store| && i != id ==> store[i] == old(store)[i]
    {
      if at.None? {
        return;
      }
      var p := at.value;
      var id := drag.value.entity;
      var annotation := store[id];
      store := store[id := annotation.(end := p)];
    }

    /** The release system: drops the drag resource and nothing else. */
    method EndDrag()
      requires Valid()
      modifies this`drag
      ensures Valid()
      ensures State() == Apply(old(State()), Release)
      ensures drag == None && store == old(store)
    {
      drag := None;
    }

    /** Despawns every sprite emitted before, one at a time. */
    method DestroySprites()
      modifies this`sprites
      ensures sprites == []
    {
      while sprites != []
        decreases |sprites|
      {
        sprites := sprites[1..];
      }
    }

    /** Spawns one sprite per record, after the sprites already there. */
    method CreateSprites()
      modifies this`sprites
      ensures sprites == old(sprites) + Render(store)
    {
      var i := 0;
      while i < |store|
        invariant 0 <= i <= |store|
        invariant sprites == old(sprites) + Render(store[..i])
      {
        assert store[..i + 1] == store[..i] + [store[i]];
        RenderSnoc(store[..i], store[i]);
        sprites := sprites + [SpriteOf(store[i])];
        i := i + 1;
      }
      assert store[..i] == store;
    }

    /** Render sync: tear every sprite down, then emit one per record. No
        sprite of an earlier frame survives and none is missing. */
    method SyncSprites()
      modifies this`sprites
      ensures sprites == Render(store)
    {
      DestroySprites();
      CreateSprites();
    }

    /** Render sync run twice with the store unchanged leaves the same sprites
        on screen both times. */
    method SyncSpritesTwice() returns (first: seq<Sprite>, second: seq<Sprite>)
      modifies this`sprites
      ensures first == second == Render(store)
    {
      SyncSprites();
      first := sprites;
      SyncSprites();
      second := sprites;
    }

    /** One frame: the press system if the button was just pressed, the move
        system if the drag resource exists, the release system if the button
        was just released, then render sync. */
    method RunFrame(pressed: bool, released: bool, cursor: Option<Point>)
      requires Valid()
      modifies this`store, this`drag, this`sprites
      ensures Valid()
      ensures State() == Run(old(State()), FrameEvents(pressed, released, cursor))
      ensures |store| == |old(store)| + (if pressed && cursor.Some? then 1 else 0)
      ensures sprites == Render(store)
    {
      ghost var w0 := State();
      ghost var press: seq<Event> := if pressed then [Press(cursor)] else [];
      ghost var release: seq<Event> := if released then [Release] else [];
      if pressed {
        StartDrag(cursor);
      }
      assert State() == Run(w0, press) by {
        if pressed {
          assert press[1..] == [];
        }
      }
      ghost var w1 := State();
      if drag.Some? {
        Drag(cursor);
      }
      assert State() == Run(w1, [Move(cursor)]) by {
        assert [Move(cursor)][1..] == [];
      }
      ghost var w2 := State();
      if released {
        EndDrag();
      }
      assert State() == Run(w2, release) by {
        if released {
          assert release[1..] == [];
        }
      }
      RunAppend(w0, press, [Move(cursor)]);
      RunAppend(w0, press + [Move(cursor)], release);
      RunCountsSpawns(w0, FrameEvents(pressed, released, cursor));
      SyncSprites();
    }
  }
}
