/**
 * The display server's buffer bookkeeping: handles map to display resources, removed resources wait in
 * a delayed-delete list stamped with a frame index, and the surface shown last carries one extra
 * reference. This file holds the data, what each operation computes, and the two classes.
 *
 * A display resource and the surface created with it share one identifier. Touching a surface that was
 * already destroyed sets `fault`; nothing else does.
 */
module DisplayBuffers {
  import opened Options

  const FRAME_WRAP: nat := 0x1_0000_0000_0000_0000
  const MAX_AGE: nat := 30
  const VA_INVALID_SURFACE: nat := 0xffff_ffff

  type Handle = nat
  type ResId = nat

  datatype Surface = Surface(vaId: nat, refCount: int)

  /** A delayed-delete entry. `removedAt` is history: how many frames had begun when it was removed. */
  datatype Entry = Entry(stamp: nat, res: ResId, removedAt: nat)

  /** History of a resource deleted or of a surface destroyed, in counts of begun frames. */
  datatype Freed = Freed(res: ResId, removedAt: nat, freedAt: nat)

  /**
   * `begins`, `created`, `gone` (resources deleted), `released` (surfaces destroyed) and `fault` record history;
   * the rest is renderer and surface state.
   */
  datatype Renderer = Renderer(
    frameIdx: nat,
    cur: Option<ResId>,
    deleted: seq<Entry>,
    surfaces: map<ResId, Surface>,
    begins: nat,
    created: nat,
    gone: seq<Freed>,
    released: seq<Freed>,
    fault: bool)

  datatype Server = Server(reses: map<Handle, Option<ResId>>, r: Renderer)

  datatype Command =
    | FrameCreate(handle: Handle, surface: Option<nat>)  // the VA id of the new surface, if creation succeeds
    | FrameRemove(handle: Handle)
    | FrameDisplay(handle: Handle)
    | Unknown

  const INIT: Server := Server(map[], Renderer(0, None, [], map[], 0, 0, [], [], false))

  // ---------------------------------------------------------------- surface reference counts

  function RefSurface(r: Renderer, id: ResId): Renderer {
    if id !in r.surfaces then r.(fault := true)
    else r.(surfaces := r.surfaces[id := r.surfaces[id].(refCount := r.surfaces[id].refCount + 1)])
  }

  /** Drops one reference and destroys the surface when none is left. */
  function UnrefSurface(r: Renderer, id: ResId, removedAt: nat): Renderer {
    if id !in r.surfaces then r.(fault := true)
    else
      var n := r.surfaces[id].refCount - 1;
      if n == 0 then
        r.(surfaces := r.surfaces - {id}, released := r.released + [Freed(id, removedAt, r.begins)])
      else
        r.(surfaces := r.surfaces[id := r.surfaces[id].(refCount := n)])
  }

  /** `ref_count = 1` followed by one unref. */
  function ForceRelease(r: Renderer, e: Entry): Renderer {
    if e.res !in r.surfaces then r.(fault := true)
    else UnrefSurface(r.(surfaces := r.surfaces[e.res := r.surfaces[e.res].(refCount := 1)]), e.res, e.removedAt)
  }

  // ---------------------------------------------------------------- renderer

  /** createDispRes: one resource with one surface, or nothing if the surface cannot be created. */
  function CreateRes(r: Renderer, vaId: Option<nat>): (Renderer, Option<ResId>) {
    match vaId
    case None => (r, None)
    case Some(va) =>
      (r.(surfaces := r.surfaces[r.created := Surface(va, 1)], created := r.created + 1), Some(r.created))
  }

  function DestroyRes(r: Renderer, res: Option<ResId>): Renderer {
    match res
    case None => r
    case Some(id) => r.(deleted := r.deleted + [Entry(r.frameIdx, id, r.begins)])
  }

  /** drawDispRes: write the surface, then move the "currently shown" reference to it. */
  function Draw(r: Renderer, res: Option<ResId>): Renderer {
    var r0 := if res.Some? && res.value !in r.surfaces then r.(fault := true) else r;
    if r0.cur == res then r0
    else
      var r1 := if r0.cur.Some? then UnrefSurface(r0, r0.cur.value, r0.begins) else r0;
      var r2 := if res.Some? then RefSurface(r1, res.value) else r1;
      r2.(cur := res)
  }

  function BeginFrame(r: Renderer): Renderer {
    r.(frameIdx := (r.frameIdx + 1) % FRAME_WRAP, begins := r.begins + 1)
  }

  /** The frame age retireFrame computes; a stamp from before an index wrap-around counts as 0. */
  function Age(r: Renderer, e: Entry): nat {
    if e.stamp <= r.frameIdx then r.frameIdx - e.stamp else r.frameIdx
  }

  function CurrentVaId(r: Renderer): nat {
    if r.cur.Some? && r.cur.value in r.surfaces then r.surfaces[r.cur.value].vaId else VA_INVALID_SURFACE
  }

  /** The guard that keeps retireFrame from releasing the surface of an aged resource. */
  predicate SharesCurrentId(r: Renderer, id: ResId) {
    id in r.surfaces && r.surfaces[id].vaId == CurrentVaId(r)
  }

  /** An aged resource is deleted; its surface is released unless it has the current surface's VA id. */
  function Reclaim(r: Renderer, e: Entry): Renderer {
    var r0 := if r.cur.Some? && r.cur.value !in r.surfaces then r.(fault := true) else r;
    var r1 := if SharesCurrentId(r0, e.res) then r0 else ForceRelease(r0, e);
    r1.(gone := r1.gone + [Freed(e.res, e.removedAt, r.begins)])
  }

  function Without(s: seq<Entry>, i: nat): (t: seq<Entry>)
    requires i < |s|
    ensures |t| == |s| - 1
    ensures forall k :: 0 <= k < |t| ==> t[k] == s[if k < i then k else k + 1]
  {
    s[..i] + s[i + 1..]
  }

  /** retireFrame from list position `i` on. */
  function RetireFrom(r: Renderer, i: nat): Renderer
    requires i <= |r.deleted|
    decreases |r.deleted| - i
  {
    if i == |r.deleted| then r
    else
      var e := r.deleted[i];
      if Age(r, e) > MAX_AGE then
        RetireFrom(Reclaim(r, e).(deleted := Without(r.deleted, i)), i)
      else
        RetireFrom(r.(deleted := r.deleted[i := if e.stamp <= r.frameIdx then e else e.(stamp := 0)]), i + 1)
  }

  function RetireFrame(r: Renderer): Renderer {
    RetireFrom(r, 0)
  }

  /** flushDelayDelRes, run by the renderer's destructor. */
  function Flush(r: Renderer): Renderer
    decreases |r.deleted|
  {
    if r.deleted == [] then r
    else
      var e := r.deleted[0];
      var r1 := ForceRelease(r, e);
      Flush(r1.(gone := r1.gone + [Freed(e.res, e.removedAt, r.begins)], deleted := r.deleted[1..]))
  }

  // ---------------------------------------------------------------- server

  function CreateBuffer(s: Server, h: Handle, vaId: Option<nat>): Server {
    var (r, res) := CreateRes(s.r, vaId);
    Server(s.reses[h := res], if h in s.reses then DestroyRes(r, s.reses[h]) else r)
  }

  /** A handle whose resource could not be created stays in the map. */
  function RemoveBuffer(s: Server, h: Handle): Server {
    if h in s.reses && s.reses[h].Some? then Server(s.reses - {h}, DestroyRes(s.r, s.reses[h])) else s
  }

  function DisplayRequest(s: Server, h: Handle): Server {
    if h in s.reses then s.(r := RetireFrame(Draw(BeginFrame(s.r), s.reses[h]))) else s
  }

  function Step(s: Server, c: Command): Server {
    match c
    case FrameCreate(h, va) => CreateBuffer(s, h, va)
    case FrameRemove(h) => RemoveBuffer(s, h)
    case FrameDisplay(h) => DisplayRequest(s, h)
    case Unknown => s
  }

  function Run(s: Server, commands: seq<Command>): Server
    decreases |commands|
  {
    if commands == [] then s else Run(Step(s, commands[0]), commands[1..])
  }

  /** The loop of deinit, taking the map entries in the given order. */
  function DropAll(s: Server, order: seq<Handle>): Server
    decreases |order|
  {
    if order == [] then s
    else
      var h := order[0];
      DropAll(Server(s.reses - {h}, if h in s.reses then DestroyRes(s.r, s.reses[h]) else s.r), order[1..])
  }

  /** deinit: drop every map entry, retire, and destroy the renderer. */
  function Shutdown(s: Server, order: seq<Handle>): Server {
    var s1 := DropAll(s, order);
    s1.(r := Flush(RetireFrame(s1.r)))
  }

  // ---------------------------------------------------------------- the classes

  class DisplayVideoRenderer {
    var frameIdx: nat
    var curSurface: Option<ResId>
    var deletedReses: seq<Entry>
    var surfaces: map<ResId, Surface>
    var begins: nat
    var created: nat
    var gone: seq<Freed>
    var released: seq<Freed>
    var fault: bool

    ghost function Abs(): Renderer
      reads this
    {
      Renderer(frameIdx, curSurface, deletedReses, surfaces, begins, created, gone, released, fault)
    }

    constructor ()
      ensures Abs() == INIT.r
    {
      frameIdx, curSurface, deletedReses, surfaces := 0, None, [], map[];
      begins, created, gone, released, fault := 0, 0, [], [], false;
    }

    method IrrEncoderRefSurface(id: ResId)
      modifies this
      ensures Abs() == RefSurface(old(Abs()), id)
    {
      if id in surfaces {
        surfaces := surfaces[id := surfaces[id].(refCount := surfaces[id].refCount + 1)];
      } else {
        fault := true;
      }
    }

    method IrrEncoderUnrefSurface(id: ResId, removedAt: nat)
      modifies this
      ensures Abs() == UnrefSurface(old(Abs()), id, removedAt)
    {
      if id in surfaces {
        surfaces := surfaces[id := surfaces[id].(refCount := surfaces[id].refCount - 1)];
        if surfaces[id].refCount == 0 {
          assert surfaces - {id} == old(surfaces) - {id};
          surfaces := surfaces - {id};
          released := released + [Freed(id, removedAt, begins)];
        }
      } else {
        fault := true;
      }
    }

    method ForceReleaseSurface(e: Entry)
      modifies this
      ensures Abs() == ForceRelease(old(Abs()), e)
    {
      if e.res in surfaces {
        surfaces := surfaces[e.res := surfaces[e.res].(refCount := 1)];
        IrrEncoderUnrefSurface(e.res, e.removedAt);
      } else {
        fault := true;
      }
    }

    method CreateDispRes(vaId: Option<nat>) returns (res: Option<ResId>)
      modifies this
      ensures (Abs(), res) == CreateRes(old(Abs()), vaId)
    {
      match vaId {
        case None => res := None;
        case Some(va) =>
          res := Some(created);
          surfaces := surfaces[created := Surface(va, 1)];
          created := created + 1;
      }
    }

    method DestroyDispRes(res: Option<ResId>)
      modifies this
      ensures Abs() == DestroyRes(old(Abs()), res)
    {
      if res.Some? {
        deletedReses := deletedReses + [Entry(frameIdx, res.value, begins)];
      }
    }

    method DrawDispRes(res: Option<ResId>)
      modifies this
      ensures Abs() == Draw(old(Abs()), res)
    {
      if res.Some? && res.value !in surfaces {
        fault := true;
      }
      if curSurface != res {
        if curSurface.Some? {
          IrrEncoderUnrefSurface(curSurface.value, begins);
        }
        if res.Some? {
          IrrEncoderRefSurface(res.value);
        }
        curSurface := res;
      }
    }

    method Begin()
      modifies this
      ensures Abs() == BeginFrame(old(Abs()))
    {
      frameIdx := (frameIdx + 1) % FRAME_WRAP;
      begins := begins + 1;
    }

    /** Erases while iterating, as the list iterator does. */
    method Retire()
      modifies this
      ensures Abs() == RetireFrame(old(Abs()))
    {
      var i := 0;
      while i < |deletedReses|
        invariant i <= |deletedReses|
        invariant RetireFrom(Abs(), i) == RetireFrame(old(Abs()))
        decreases |deletedReses| - i
      {
        var e := deletedReses[i];
        var age := if e.stamp <= frameIdx then frameIdx - e.stamp else frameIdx;
        if age > MAX_AGE {
          ReclaimAt(i);
        } else {
          deletedReses := deletedReses[i := if e.stamp <= frameIdx then e else e.(stamp := 0)];
          i := i + 1;
        }
      }
    }

    /** The inner branch of retireFrame. */
    method ReclaimAt(i: nat)
      requires i < |deletedReses|
      modifies this
      ensures Abs() == Reclaim(old(Abs()), old(deletedReses[i])).(deleted := Without(old(deletedReses), i))
    {
      var e := deletedReses[i];
      if curSurface.Some? && curSurface.value !in surfaces {
        fault := true;
      }
      var currentId := if curSurface.Some? && curSurface.value in surfaces
                       then surfaces[curSurface.value].vaId else VA_INVALID_SURFACE;
      if !(e.res in surfaces && surfaces[e.res].vaId == currentId) {
        ForceReleaseSurface(e);
      }
      gone := gone + [Freed(e.res, e.removedAt, begins)];
      deletedReses := Without(deletedReses, i);
    }

    method FlushDelayDelRes()
      modifies this
      ensures Abs() == Flush(old(Abs()))
    {
      while deletedReses != []
        invariant Flush(Abs()) == Flush(old(Abs()))
        decreases |deletedReses|
      {
        var e := deletedReses[0];
        ghost var before := Abs();
        ForceReleaseSurface(e);
        gone := gone + [Freed(e.res, e.removedAt, begins)];
        deletedReses := deletedReses[1..];
        assert Abs() == ForceRelease(before, e).(gone := before.gone + [Freed(e.res, e.removedAt, before.begins)], deleted := before.deleted[1..]);
      }
    }
  }

  class DisplayServerVHAL {
    var dispReses: map<Handle, Option<ResId>>
    const renderer: DisplayVideoRenderer

    ghost function Abs(): Server
      reads this, renderer
    {
      Server(dispReses, renderer.Abs())
    }

    constructor ()
      ensures Abs() == INIT && fresh(renderer)
    {
      dispReses := map[];
      renderer := new DisplayVideoRenderer();
    }

    method CommandHandler(c: Command)
      modifies this, renderer
      ensures Abs() == Step(old(Abs()), c)
    {
      match c {
        case FrameCreate(h, va) =>
          var res := renderer.CreateDispRes(va);
          if h in dispReses {
            renderer.DestroyDispRes(dispReses[h]);
          }
          dispReses := dispReses[h := res];
        case FrameRemove(h) =>
          if h in dispReses && dispReses[h].Some? {
            renderer.DestroyDispRes(dispReses[h]);
            dispReses := dispReses - {h};
          }
        case FrameDisplay(h) =>
          if h in dispReses {
            renderer.Begin();
            renderer.DrawDispRes(dispReses[h]);
            renderer.Retire();
          }
        case Unknown =>
      }
    }

    /** The map may hand out its entries in any order; `order` records the one taken. */
    method Deinit() returns (ghost order: seq<Handle>)
      modifies this, renderer
      ensures forall h :: h in order <==> h in old(dispReses)
      ensures Abs() == Shutdown(old(Abs()), order)
    {
      order := [];
      ghost var start := Abs();
      while dispReses != map[]
        invariant DropAll(start, order) == Abs()
        invariant dispReses.Keys <= start.reses.Keys
        invariant forall h :: h in start.reses <==> h in dispReses || h in order
        decreases |dispReses|
      {
        var h :| h in dispReses;
        ghost var before := Abs();
        renderer.DestroyDispRes(dispReses[h]);
        dispReses := dispReses - {h};
        DropAllSnoc(start, order, h);
        order := order + [h];
        assert |dispReses| < |before.reses| by {
          assert dispReses.Keys < before.reses.Keys;
          KeysShrink(dispReses, before.reses);
        }
      }
      renderer.Retire();
      renderer.FlushDelayDelRes();
    }
  }

  lemma KeysShrink(a: map<Handle, Option<ResId>>, b: map<Handle, Option<ResId>>)
    requires a.Keys < b.Keys
    ensures |a| < |b|
  {
    var extra := b.Keys - a.Keys;
    assert b.Keys == a.Keys + extra && a.Keys !! extra;
    assert |b.Keys| == |a.Keys| + |extra|;
    assert extra != {};
  }

  lemma {:induction false} DropAllSnoc(s: Server, order: seq<Handle>, h: Handle)
    ensures DropAll(s, order + [h]) ==
            var t := DropAll(s, order);
            Server(t.reses - {h}, if h in t.reses then DestroyRes(t.r, t.reses[h]) else t.r)
    decreases |order|
  {
    if order != [] {
      var g := order[0];
      assert (order + [h])[1..] == order[1..] + [h];
      DropAllSnoc(Server(s.reses - {g}, if g in s.reses then DestroyRes(s.r, s.reses[g]) else s.r), order[1..], h);
    } else {
      assert [] + [h] == [h];
      assert DropAll(s, [h]) == DropAll(DropAll(s, [h]), []);
    }
  }
}
