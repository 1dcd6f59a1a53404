/** What every run of the display server keeps: ownership, reference counts, the grace period, and releases. */
module DisplayBufferSafety {
  import opened Options
  import opened DisplayBuffers

  // ---------------------------------------------------------------- the invariant

  predicate InMap(reses: map<Handle, Option<ResId>>, id: ResId) {
    exists h :: h in reses && reses[h] == Some(id)
  }

  predicate InList(deleted: seq<Entry>, id: ResId) {
    exists k :: 0 <= k < |deleted| && deleted[k].res == id
  }

  function Ids(freed: seq<Freed>): (ids: seq<ResId>)
    ensures |ids| == |freed| && forall k :: 0 <= k < |freed| ==> ids[k] == freed[k].res
  {
    seq(|freed|, k requires 0 <= k < |freed| => freed[k].res)
  }

  lemma IdsAppend(freed: seq<Freed>, f: Freed)
    ensures Ids(freed + [f]) == Ids(freed) + [f.res]
  {
  }

  predicate WasReleased(released: seq<Freed>, id: ResId) {
    exists k :: 0 <= k < |released| && released[k].res == id
  }

  ghost predicate MapOnce(reses: map<Handle, Option<ResId>>, created: nat, gone: seq<ResId>) {
    && (forall g, h :: g in reses && h in reses && reses[g].Some? && reses[g] == reses[h] ==> g == h)
    && (forall h :: h in reses && reses[h].Some? ==> reses[h].value < created && reses[h].value !in gone)
  }

  ghost predicate ListOnce(reses: map<Handle, Option<ResId>>, created: nat, deleted: seq<Entry>, gone: seq<ResId>) {
    && (forall j, k :: 0 <= j < k < |deleted| ==> deleted[j].res != deleted[k].res)
    && (forall k :: 0 <= k < |deleted| ==>
          deleted[k].res < created && deleted[k].res !in gone && !InMap(reses, deleted[k].res))
  }

  ghost predicate GoneOnce(created: nat, gone: seq<ResId>) {
    && (forall j, k :: 0 <= j < k < |gone| ==> gone[j] != gone[k])
    && (forall k :: 0 <= k < |gone| ==> gone[k] < created)
  }

  ghost predicate Covered(reses: map<Handle, Option<ResId>>, created: nat, deleted: seq<Entry>, gone: seq<ResId>) {
    forall id :: 0 <= id < created ==> InMap(reses, id) || InList(deleted, id) || id in gone
  }

  /** Every resource ever created has exactly one place, and stands there once: map, delete list, or deleted. */
  ghost predicate Partition(reses: map<Handle, Option<ResId>>, created: nat, deleted: seq<Entry>, gone: seq<ResId>) {
    && MapOnce(reses, created, gone)
    && ListOnce(reses, created, deleted, gone)
    && GoneOnce(created, gone)
    && Covered(reses, created, deleted, gone)
  }

  /** A surface is live until its one release, and only deleted resources have had their surface released. */
  ghost predicate Live(r: Renderer) {
    && (forall id: ResId :: id in r.surfaces <==> id < r.created && !WasReleased(r.released, id))
    && (forall j, k :: 0 <= j < k < |r.released| ==> r.released[j].res != r.released[k].res)
    && (forall k :: 0 <= k < |r.released| ==> r.released[k].res in Ids(r.gone))
  }

  /** One reference for the resource, one more for the surface currently shown. */
  ghost predicate Counted(r: Renderer) {
    && (r.cur.Some? ==> r.cur.value in r.surfaces)
    && (forall id: ResId :: id in r.surfaces ==> r.surfaces[id].refCount == if r.cur == Some(id) then 2 else 1)
  }

  /** The current surface belongs to a mapped resource or to one removed since the last frame began. */
  ghost predicate CurrentOwned(s: Server) {
    s.r.cur.Some? ==>
      || InMap(s.reses, s.r.cur.value)
      || exists k :: 0 <= k < |s.r.deleted| && s.r.deleted[k].res == s.r.cur.value
                     && s.r.deleted[k].stamp == s.r.frameIdx
  }

  function Effective(r: Renderer, e: Entry): nat {
    if e.stamp <= r.frameIdx then e.stamp else 0
  }

  /** Entries are in nondecreasing stamp order and no older than they look; the first `i` are young. */
  ghost predicate Stamped(r: Renderer, i: nat) {
    && r.frameIdx < FRAME_WRAP
    && (forall k :: 0 <= k < |r.deleted| ==>
          r.deleted[k].removedAt <= r.begins && Age(r, r.deleted[k]) <= r.begins - r.deleted[k].removedAt)
    && (forall j, k :: 0 <= j < k < |r.deleted| ==> Effective(r, r.deleted[j]) <= Effective(r, r.deleted[k]))
    && (forall k :: 0 <= k < i && k < |r.deleted| ==>
          r.deleted[k].stamp <= r.frameIdx && Age(r, r.deleted[k]) <= MAX_AGE)
  }

  /** Nothing was freed before 31 further frames had begun. */
  ghost predicate Graced(freed: seq<Freed>) {
    forall k :: 0 <= k < |freed| ==> freed[k].freedAt - freed[k].removedAt > MAX_AGE
  }

  ghost predicate Core(reses: map<Handle, Option<ResId>>, r: Renderer, i: nat) {
    && !r.fault
    && Partition(reses, r.created, r.deleted, Ids(r.gone))
    && Live(r) && Counted(r) && Stamped(r, i) && Graced(r.gone) && Graced(r.released)
  }

  ghost predicate Inv(s: Server) {
    Core(s.reses, s.r, |s.r.deleted|) && CurrentOwned(s)
  }

  // ---------------------------------------------------------------- retireFrame

  ghost predicate CurrentMapped(reses: map<Handle, Option<ResId>>, r: Renderer) {
    r.cur.Some? ==> InMap(reses, r.cur.value)
  }

  lemma ListWithout(reses: map<Handle, Option<ResId>>, created: nat, deleted: seq<Entry>, gone: seq<ResId>, i: nat)
    requires i < |deleted| && ListOnce(reses, created, deleted, gone)
    ensures ListOnce(reses, created, Without(deleted, i), gone + [deleted[i].res])
  {
  }

  lemma MapWithout(reses: map<Handle, Option<ResId>>, created: nat, gone: seq<ResId>, id: ResId)
    requires MapOnce(reses, created, gone) && !InMap(reses, id)
    ensures MapOnce(reses, created, gone + [id])
  {
  }

  lemma CoveredMove(reses: map<Handle, Option<ResId>>, created: nat, deleted: seq<Entry>, gone: seq<ResId>, i: nat)
    requires i < |deleted| && Covered(reses, created, deleted, gone)
    ensures Covered(reses, created, Without(deleted, i), gone + [deleted[i].res])
  {
    var rest := Without(deleted, i);
    forall id | 0 <= id < created ensures InMap(reses, id) || InList(rest, id) || id in gone + [deleted[i].res] {
      if InList(deleted, id) && id != deleted[i].res {
        var k :| 0 <= k < |deleted| && deleted[k].res == id;
        assert rest[if k < i then k else k - 1].res == id;
      }
    }
  }

  lemma MoveToGone(reses: map<Handle, Option<ResId>>, created: nat, deleted: seq<Entry>, gone: seq<ResId>, i: nat)
    requires i < |deleted| && Partition(reses, created, deleted, gone)
    ensures Partition(reses, created, Without(deleted, i), gone + [deleted[i].res])
  {
    ListWithout(reses, created, deleted, gone, i);
    MapWithout(reses, created, gone, deleted[i].res);
    CoveredMove(reses, created, deleted, gone, i);
  }

  lemma Restamped(reses: map<Handle, Option<ResId>>, created: nat, deleted: seq<Entry>, gone: seq<ResId>, i: nat, stamp: nat)
    requires i < |deleted| && Partition(reses, created, deleted, gone)
    ensures Partition(reses, created, deleted[i := deleted[i].(stamp := stamp)], gone)
  {
    var next := deleted[i := deleted[i].(stamp := stamp)];
    forall id: ResId | InList(deleted, id) ensures InList(next, id) {
      var k :| 0 <= k < |deleted| && deleted[k].res == id;
      assert next[k].res == id;
    }
  }

  /** A listed resource still has its surface. */
  lemma ListedIsLive(reses: map<Handle, Option<ResId>>, r: Renderer, k: nat)
    requires k < |r.deleted| && Partition(reses, r.created, r.deleted, Ids(r.gone)) && Live(r)
    ensures r.deleted[k].res in r.surfaces
  {
  }

  function Reclaimed(r: Renderer, i: nat): Renderer
    requires i < |r.deleted|
  {
    Reclaim(r, r.deleted[i]).(deleted := Without(r.deleted, i))
  }

  /** The forced count was already 1: reclaiming never discards an outstanding reference. */
  lemma ReclaimShape(reses: map<Handle, Option<ResId>>, r: Renderer, i: nat)
    requires i < |r.deleted| && Core(reses, r, i) && CurrentMapped(reses, r)
    ensures var e := r.deleted[i];
            && r.cur != Some(e.res) && e.res in r.surfaces && r.surfaces[e.res].refCount == 1
            && Reclaimed(r, i) ==
               (if SharesCurrentId(r, e.res) then r
                else r.(surfaces := r.surfaces - {e.res}, released := r.released + [Freed(e.res, e.removedAt, r.begins)]))
                 .(deleted := Without(r.deleted, i), gone := r.gone + [Freed(e.res, e.removedAt, r.begins)])
  {
  }

  lemma ReclaimStep(reses: map<Handle, Option<ResId>>, r: Renderer, i: nat)
    requires i < |r.deleted| && Core(reses, r, i) && CurrentMapped(reses, r) && Age(r, r.deleted[i]) > MAX_AGE
    ensures Core(reses, Reclaimed(r, i), i)
  {
    var e, q := r.deleted[i], Reclaimed(r, i);
    ReclaimShape(reses, r, i);
    MoveToGone(reses, r.created, r.deleted, Ids(r.gone), i);
    IdsAppend(r.gone, Freed(e.res, e.removedAt, r.begins));
    assert Stamped(q, i) by { StampedWithout(r, q, i); }
    if !SharesCurrentId(r, e.res) {
      ReleaseOne(r, q, e);
    }
  }

  lemma StampedWithout(r: Renderer, q: Renderer, i: nat)
    requires i < |r.deleted| && Stamped(r, i)
    requires q.deleted == Without(r.deleted, i) && q.frameIdx == r.frameIdx && q.begins == r.begins
    ensures Stamped(q, i)
  {
    forall k | 0 <= k < |q.deleted|
      ensures q.deleted[k] == r.deleted[if k < i then k else k + 1]
      ensures Age(q, q.deleted[k]) == Age(r, q.deleted[k]) && Effective(q, q.deleted[k]) == Effective(r, q.deleted[k])
    {
    }
  }

  lemma ReleaseOne(r: Renderer, q: Renderer, e: Entry)
    requires Live(r) && e.res in r.surfaces && e.res !in Ids(r.gone)
    requires q.surfaces == r.surfaces - {e.res} && q.created == r.created
    requires q.released == r.released + [Freed(e.res, e.removedAt, r.begins)]
    requires Ids(q.gone) == Ids(r.gone) + [e.res]
    ensures Live(q)
  {
    forall id: ResId ensures WasReleased(q.released, id) <==> WasReleased(r.released, id) || id == e.res {
      if WasReleased(r.released, id) {
        var k :| 0 <= k < |r.released| && r.released[k].res == id;
        assert q.released[k].res == id;
      }
      if id == e.res {
        assert q.released[|r.released|].res == id;
      }
    }
  }

  function Kept(r: Renderer, i: nat): Renderer
    requires i < |r.deleted|
  {
    r.(deleted := r.deleted[i := r.deleted[i].(stamp := Effective(r, r.deleted[i]))])
  }

  lemma KeepStep(reses: map<Handle, Option<ResId>>, r: Renderer, i: nat)
    requires i < |r.deleted| && Core(reses, r, i) && Age(r, r.deleted[i]) <= MAX_AGE
    ensures Core(reses, Kept(r, i), i + 1)
  {
    Restamped(reses, r.created, r.deleted, Ids(r.gone), i, Effective(r, r.deleted[i]));
    StampedKept(r, i);
  }

  lemma StampedKept(r: Renderer, i: nat)
    requires i < |r.deleted| && Stamped(r, i) && Age(r, r.deleted[i]) <= MAX_AGE
    ensures Stamped(Kept(r, i), i + 1)
  {
  }

  predicate Aged(r: Renderer, i: nat, id: ResId) {
    exists k :: i <= k < |r.deleted| && r.deleted[k].res == id && Age(r, r.deleted[k]) > MAX_AGE
  }

  /** `q` is `r` with exactly the aged entries from `i` on reclaimed. */
  ghost predicate Retired(r: Renderer, i: nat, q: Renderer) {
    && q.cur == r.cur && q.frameIdx == r.frameIdx && q.created == r.created && q.begins == r.begins
    && CurrentVaId(q) == CurrentVaId(r)
    && (forall id: ResId :: id in Ids(q.gone) <==> id in Ids(r.gone) || Aged(r, i, id))
    && (forall id: ResId :: id in q.surfaces <==> id in r.surfaces && (Aged(r, i, id) ==> SharesCurrentId(r, id)))
    && (forall id: ResId :: id in q.surfaces ==> q.surfaces[id] == r.surfaces[id])
  }

  lemma RetireUnfolds(r: Renderer, i: nat)
    requires i < |r.deleted|
    ensures RetireFrom(r, i) ==
            if Age(r, r.deleted[i]) > MAX_AGE then RetireFrom(Reclaimed(r, i), i) else RetireFrom(Kept(r, i), i + 1)
  {
  }

  /** One loop round of retireFrame keeps the invariant. */
  lemma RetireRound(reses: map<Handle, Option<ResId>>, r: Renderer, i: nat)
    requires i < |r.deleted| && Core(reses, r, i) && CurrentMapped(reses, r)
    ensures if Age(r, r.deleted[i]) > MAX_AGE then Core(reses, Reclaimed(r, i), i) && CurrentMapped(reses, Reclaimed(r, i))
            else Core(reses, Kept(r, i), i + 1) && CurrentMapped(reses, Kept(r, i))
  {
    if Age(r, r.deleted[i]) > MAX_AGE {
      ReclaimStep(reses, r, i);
      ReclaimShape(reses, r, i);
    } else {
      KeepStep(reses, r, i);
    }
  }

  /** retireFrame keeps the invariant. */
  lemma {:induction false} RetireKeeps(reses: map<Handle, Option<ResId>>, r: Renderer, i: nat)
    requires i <= |r.deleted| && Core(reses, r, i) && CurrentMapped(reses, r)
    ensures Core(reses, RetireFrom(r, i), |RetireFrom(r, i).deleted|)
    decreases |r.deleted| - i
  {
    if i < |r.deleted| {
      RetireRound(reses, r, i);
      RetireUnfolds(r, i);
      if Age(r, r.deleted[i]) > MAX_AGE {
        RetireKeeps(reses, Reclaimed(r, i), i);
      } else {
        RetireKeeps(reses, Kept(r, i), i + 1);
      }
    }
  }

  /** One loop round of retireFrame can be undone in the summary `Retired`. */
  lemma RetireStep(reses: map<Handle, Option<ResId>>, r: Renderer, i: nat, q: Renderer)
    requires i < |r.deleted| && Core(reses, r, i) && CurrentMapped(reses, r)
    requires if Age(r, r.deleted[i]) > MAX_AGE then Retired(Reclaimed(r, i), i, q) else Retired(Kept(r, i), i + 1, q)
    ensures Retired(r, i, q)
  {
    if Age(r, r.deleted[i]) > MAX_AGE {
      ReclaimShape(reses, r, i);
      IdsAppend(r.gone, Freed(r.deleted[i].res, r.deleted[i].removedAt, r.begins));
      RetiredAfterReclaim(r, Reclaimed(r, i), i, q);
    } else {
      RetiredAfterKeep(r, Kept(r, i), i, q);
    }
  }

  /**
   * What retireFrame computes: exactly the aged resources are deleted, and of their surfaces exactly
   * those not sharing the current VA id are destroyed.
   */
  lemma {:induction false} Retires(reses: map<Handle, Option<ResId>>, r: Renderer, i: nat)
    requires i <= |r.deleted| && Core(reses, r, i) && CurrentMapped(reses, r)
    ensures Retired(r, i, RetireFrom(r, i))
    decreases |r.deleted| - i
  {
    if i == |r.deleted| {
      NothingRetired(r);
    } else {
      RetireRound(reses, r, i);
      RetireUnfolds(r, i);
      if Age(r, r.deleted[i]) > MAX_AGE {
        Retires(reses, Reclaimed(r, i), i);
      } else {
        Retires(reses, Kept(r, i), i + 1);
      }
      RetireStep(reses, r, i, RetireFrom(r, i));
    }
  }

  lemma NothingRetired(r: Renderer)
    ensures Retired(r, |r.deleted|, r)
  {
  }

  /** The entries from `i` on that have not aged, in list order, with the stamps retireFrame leaves. */
  function Young(r: Renderer, i: nat): seq<Entry>
    requires i <= |r.deleted|
    decreases |r.deleted| - i
  {
    if i == |r.deleted| then []
    else if Age(r, r.deleted[i]) > MAX_AGE then Young(r, i + 1)
    else [r.deleted[i].(stamp := Effective(r, r.deleted[i]))] + Young(r, i + 1)
  }

  lemma {:induction false} YoungDepends(r: Renderer, i: nat, q: Renderer, j: nat)
    requires i <= |r.deleted| && j <= |q.deleted| && q.frameIdx == r.frameIdx && r.deleted[i..] == q.deleted[j..]
    ensures Young(q, j) == Young(r, i)
    decreases |r.deleted| - i
  {
    if i < |r.deleted| {
      assert r.deleted[i] == r.deleted[i..][0] && q.deleted[j] == q.deleted[j..][0];
      assert r.deleted[i + 1..] == r.deleted[i..][1..] && q.deleted[j + 1..] == q.deleted[j..][1..];
      YoungDepends(r, i + 1, q, j + 1);
    }
  }

  lemma YoungAfterReclaim(r: Renderer, i: nat)
    requires i < |r.deleted| && Age(r, r.deleted[i]) > MAX_AGE
    ensures Reclaimed(r, i).deleted[..i] == r.deleted[..i] && Young(Reclaimed(r, i), i) == Young(r, i)
  {
    var q := Reclaimed(r, i);
    ReclaimHistory(r, r.deleted[i]);
    assert q.deleted[i..] == r.deleted[i + 1..];
    YoungDepends(r, i + 1, q, i);
  }

  lemma YoungAfterKeep(r: Renderer, i: nat)
    requires i < |r.deleted| && Age(r, r.deleted[i]) <= MAX_AGE
    ensures Kept(r, i).deleted[..i + 1] + Young(Kept(r, i), i + 1) == r.deleted[..i] + Young(r, i)
  {
    var q := Kept(r, i);
    assert q.deleted[i + 1..] == r.deleted[i + 1..];
    YoungDepends(r, i + 1, q, i + 1);
    assert q.deleted[..i + 1] == r.deleted[..i] + [q.deleted[i]];
  }

  /** What retireFrame leaves on the list: the entries before `i`, then exactly those that have not aged, in order. */
  lemma {:induction false} RetireLeavesYoung(r: Renderer, i: nat)
    requires i <= |r.deleted|
    ensures RetireFrom(r, i).deleted == r.deleted[..i] + Young(r, i)
    decreases |r.deleted| - i
  {
    if i == |r.deleted| {
      assert r.deleted[..i] == r.deleted;
    } else {
      RetireUnfolds(r, i);
      if Age(r, r.deleted[i]) > MAX_AGE {
        YoungAfterReclaim(r, i);
        RetireLeavesYoung(Reclaimed(r, i), i);
      } else {
        YoungAfterKeep(r, i);
        RetireLeavesYoung(Kept(r, i), i + 1);
      }
    }
  }

  lemma RetiredAfterReclaim(r: Renderer, m: Renderer, i: nat, q: Renderer)
    requires i < |r.deleted| && Age(r, r.deleted[i]) > MAX_AGE && r.cur != Some(r.deleted[i].res)
    requires forall k :: i < k < |r.deleted| ==> r.deleted[k].res != r.deleted[i].res
    requires m.cur == r.cur && m.frameIdx == r.frameIdx && m.created == r.created && m.begins == r.begins
    requires m.deleted == Without(r.deleted, i) && Ids(m.gone) == Ids(r.gone) + [r.deleted[i].res]
    requires m.surfaces == if SharesCurrentId(r, r.deleted[i].res) then r.surfaces else r.surfaces - {r.deleted[i].res}
    requires Retired(m, i, q)
    ensures Retired(r, i, q)
  {
    var e := r.deleted[i];
    assert CurrentVaId(m) == CurrentVaId(r);
    forall id: ResId ensures Aged(r, i, id) <==> id == e.res || Aged(m, i, id) {
      AgedWithout(r, m, i, id);
    }
    assert !Aged(m, i, e.res);
    forall id: ResId
      ensures id in q.surfaces <==> id in r.surfaces && (Aged(r, i, id) ==> SharesCurrentId(r, id))
    {
      assert id in m.surfaces ==> (SharesCurrentId(m, id) <==> SharesCurrentId(r, id));
    }
  }

  lemma RetiredAfterKeep(r: Renderer, m: Renderer, i: nat, q: Renderer)
    requires i < |r.deleted| && Age(r, r.deleted[i]) <= MAX_AGE
    requires m == r.(deleted := m.deleted) && |m.deleted| == |r.deleted|
    requires forall k :: i < k < |r.deleted| ==> m.deleted[k] == r.deleted[k]
    requires Retired(m, i + 1, q)
    ensures Retired(r, i, q)
  {
  }

  lemma AgedWithout(r: Renderer, m: Renderer, i: nat, id: ResId)
    requires i < |r.deleted| && Age(r, r.deleted[i]) > MAX_AGE
    requires m.deleted == Without(r.deleted, i) && m.frameIdx == r.frameIdx
    ensures Aged(r, i, id) <==> id == r.deleted[i].res || Aged(m, i, id)
  {
    if Aged(r, i, id) && id != r.deleted[i].res {
      var k :| i <= k < |r.deleted| && r.deleted[k].res == id && Age(r, r.deleted[k]) > MAX_AGE;
      assert m.deleted[k - 1] == r.deleted[k];
    }
    if Aged(m, i, id) {
      var k :| i <= k < |m.deleted| && m.deleted[k].res == id && Age(m, m.deleted[k]) > MAX_AGE;
      assert r.deleted[k + 1] == m.deleted[k];
    }
  }

  // ---------------------------------------------------------------- every command keeps the invariant

  function Dropped(s: Server, h: Handle): Server
    requires h in s.reses
  {
    Server(s.reses - {h}, DestroyRes(s.r, s.reses[h]))
  }

  function Added(s: Server, h: Handle, vaId: Option<nat>): Server {
    Server(s.reses[h := CreateRes(s.r, vaId).1], CreateRes(s.r, vaId).0)
  }

  lemma MoveToList(s: Server, h: Handle)
    requires Partition(s.reses, s.r.created, s.r.deleted, Ids(s.r.gone)) && h in s.reses
    ensures var t := Dropped(s, h); Partition(t.reses, t.r.created, t.r.deleted, Ids(t.r.gone))
    ensures s.reses[h].Some? ==> InList(Dropped(s, h).r.deleted, s.reses[h].value)
    ensures forall id: ResId :: InMap(s.reses, id) && s.reses[h] != Some(id) ==> InMap(Dropped(s, h).reses, id)
  {
    var t := Dropped(s, h);
    forall id: ResId | InMap(s.reses, id) && s.reses[h] != Some(id) ensures InMap(t.reses, id) {
      var g :| g in s.reses && s.reses[g] == Some(id);
      assert g in t.reses && t.reses[g] == Some(id);
    }
    forall id: ResId | InList(s.r.deleted, id) ensures InList(t.r.deleted, id) {
      var k :| 0 <= k < |s.r.deleted| && s.r.deleted[k].res == id;
      assert t.r.deleted[k].res == id;
    }
    if s.reses[h].Some? {
      assert t.r.deleted[|s.r.deleted|].res == s.reses[h].value;
      assert InMap(s.reses, s.reses[h].value);
    }
    forall id: ResId | InMap(t.reses, id) ensures InMap(s.reses, id) {
      var g :| g in t.reses && t.reses[g] == Some(id);
      assert g in s.reses && s.reses[g] == Some(id);
    }
  }

  lemma StampedPush(r: Renderer, e: Entry)
    requires Stamped(r, |r.deleted|) && e.stamp == r.frameIdx && e.removedAt == r.begins
    ensures Stamped(r.(deleted := r.deleted + [e]), |r.deleted| + 1)
  {
  }

  lemma CurrentStaysOwned(s: Server, h: Handle)
    requires CurrentOwned(s) && h in s.reses
    requires forall id: ResId :: InMap(s.reses, id) && s.reses[h] != Some(id) ==> InMap(Dropped(s, h).reses, id)
    ensures CurrentOwned(Dropped(s, h))
  {
    var t := Dropped(s, h);
    if s.r.cur.Some? {
      var c := s.r.cur.value;
      if s.reses[h] == Some(c) {
        assert t.r.deleted[|s.r.deleted|].res == c;
      } else if !InMap(s.reses, c) {
        var k :| 0 <= k < |s.r.deleted| && s.r.deleted[k].res == c && s.r.deleted[k].stamp == s.r.frameIdx;
        assert t.r.deleted[k].res == c;
      }
    }
  }

  lemma DropStep(s: Server, h: Handle)
    requires Inv(s) && h in s.reses
    ensures Inv(Dropped(s, h))
  {
    MoveToList(s, h);
    if s.reses[h].Some? {
      StampedPush(s.r, Entry(s.r.frameIdx, s.reses[h].value, s.r.begins));
    }
    CurrentStaysOwned(s, h);
  }

  lemma NewId(s: Server, h: Handle, va: nat)
    requires Partition(s.reses, s.r.created, s.r.deleted, Ids(s.r.gone)) && h !in s.reses
    ensures var t := Added(s, h, Some(va)); Partition(t.reses, t.r.created, t.r.deleted, Ids(t.r.gone))
    ensures forall id: ResId :: InMap(s.reses, id) ==> InMap(Added(s, h, Some(va)).reses, id)
  {
    var t := Added(s, h, Some(va));
    forall id: ResId | InMap(s.reses, id) ensures InMap(t.reses, id) {
      var g :| g in s.reses && s.reses[g] == Some(id);
      assert t.reses[g] == Some(id);
    }
    assert t.reses[h] == Some(s.r.created);
    assert InMap(t.reses, s.r.created);
    forall id: ResId | InMap(t.reses, id) && id != s.r.created ensures InMap(s.reses, id) {
      var g :| g in t.reses && t.reses[g] == Some(id);
      assert g in s.reses;
    }
  }

  lemma NoId(s: Server, h: Handle)
    requires Partition(s.reses, s.r.created, s.r.deleted, Ids(s.r.gone)) && h !in s.reses
    ensures var t := Added(s, h, None); Partition(t.reses, t.r.created, t.r.deleted, Ids(t.r.gone))
    ensures forall id: ResId :: InMap(s.reses, id) <==> InMap(Added(s, h, None).reses, id)
  {
    var t := Added(s, h, None);
    forall id: ResId ensures InMap(s.reses, id) <==> InMap(t.reses, id) {
      if InMap(s.reses, id) {
        var g :| g in s.reses && s.reses[g] == Some(id);
        assert t.reses[g] == Some(id);
      }
      if InMap(t.reses, id) {
        var g :| g in t.reses && t.reses[g] == Some(id);
        assert g in s.reses;
      }
    }
  }

  lemma LiveAdd(r: Renderer, va: nat)
    requires Live(r) && GoneOnce(r.created, Ids(r.gone))
    ensures Live(CreateRes(r, Some(va)).0)
  {
  }

  lemma CountedAdd(r: Renderer, va: nat)
    requires Live(r) && Counted(r)
    ensures Counted(CreateRes(r, Some(va)).0)
  {
    assert r.created !in r.surfaces;
  }

  lemma StampedAdd(r: Renderer, va: nat)
    requires Stamped(r, |r.deleted|)
    ensures Stamped(CreateRes(r, Some(va)).0, |r.deleted|)
  {
  }

  lemma OwnedAdd(s: Server, t: Server)
    requires CurrentOwned(s) && forall id: ResId :: InMap(s.reses, id) ==> InMap(t.reses, id)
    requires t.r.cur == s.r.cur && t.r.deleted == s.r.deleted && t.r.frameIdx == s.r.frameIdx
    ensures CurrentOwned(t)
  {
  }

  lemma AddStep(s: Server, h: Handle, vaId: Option<nat>)
    requires Inv(s) && h !in s.reses
    ensures Inv(Added(s, h, vaId))
  {
    match vaId {
      case None => NoId(s, h);
      case Some(va) =>
        NewId(s, h, va);
        LiveAdd(s.r, va);
        CountedAdd(s.r, va);
        StampedAdd(s.r, va);
        OwnedAdd(s, Added(s, h, vaId));
    }
  }

  lemma StampedBegin(r: Renderer)
    requires Stamped(r, |r.deleted|)
    ensures Stamped(BeginFrame(r), 0)
  {
  }

  lemma BeginStep(s: Server)
    requires Inv(s)
    ensures Core(s.reses, BeginFrame(s.r), 0)
  {
    StampedBegin(s.r);
  }

  lemma MappedIsLive(reses: map<Handle, Option<ResId>>, r: Renderer, h: Handle)
    requires Partition(reses, r.created, r.deleted, Ids(r.gone)) && Live(r) && h in reses && reses[h].Some?
    ensures reses[h].value in r.surfaces
  {
  }

  lemma DrawStep(reses: map<Handle, Option<ResId>>, r: Renderer, h: Handle)
    requires Core(reses, r, 0) && h in reses
    ensures var q := Draw(r, reses[h]);
            && Core(reses, q, 0) && q.cur == reses[h] && q.deleted == r.deleted && q.gone == r.gone
            && q.surfaces.Keys == r.surfaces.Keys
            && forall id: ResId :: id in q.surfaces ==> q.surfaces[id].vaId == r.surfaces[id].vaId
  {
    var q := Draw(r, reses[h]);
    if reses[h].Some? {
      MappedIsLive(reses, r, h);
    }
    assert q == r.(cur := q.cur, surfaces := q.surfaces);
    assert q.surfaces.Keys == r.surfaces.Keys;
  }

  lemma DisplayStep(s: Server, h: Handle)
    requires Inv(s) && h in s.reses
    ensures Inv(DisplayRequest(s, h))
    ensures var r := Draw(BeginFrame(s.r), s.reses[h]);
            Core(s.reses, r, 0) && CurrentMapped(s.reses, r) && Retired(r, 0, DisplayRequest(s, h).r)
  {
    BeginStep(s);
    DrawStep(s.reses, BeginFrame(s.r), h);
    var r := Draw(BeginFrame(s.r), s.reses[h]);
    if r.cur.Some? {
      assert InMap(s.reses, r.cur.value);
    }
    Retires(s.reses, r, 0);
    RetireKeeps(s.reses, r, 0);
  }

  lemma CreateIsDropThenAdd(s: Server, h: Handle, vaId: Option<nat>)
    ensures CreateBuffer(s, h, vaId) == Added(if h in s.reses then Dropped(s, h) else s, h, vaId)
  {
  }

  lemma StepKeepsInv(s: Server, c: Command)
    requires Inv(s)
    ensures Inv(Step(s, c))
  {
    match c {
      case FrameCreate(h, va) =>
        var s1 := if h in s.reses then Dropped(s, h) else s;
        if h in s.reses {
          DropStep(s, h);
        }
        AddStep(s1, h, va);
        CreateIsDropThenAdd(s, h, va);
      case FrameRemove(h) =>
        if h in s.reses {
          DropStep(s, h);
        }
      case FrameDisplay(h) =>
        if h in s.reses {
          DisplayStep(s, h);
        }
      case Unknown =>
    }
  }

  /**
   * Over every run: no destroyed surface is touched, every resource has exactly one place, counts are
   * exact, the delete list is ordered and young, and nothing was released before its grace period.
   */
  lemma {:induction false} RunKeepsInv(s: Server, commands: seq<Command>)
    requires Inv(s)
    ensures Inv(Run(s, commands))
    decreases |commands|
  {
    if commands != [] {
      StepKeepsInv(s, commands[0]);
      RunKeepsInv(Step(s, commands[0]), commands[1..]);
    }
  }

  lemma InitInv()
    ensures Inv(INIT)
  {
  }

  /** The same, spelled out for runs from the empty server. */
  lemma RunIsSafe(commands: seq<Command>)
    ensures var s := Run(INIT, commands);
            && !s.r.fault
            && Partition(s.reses, s.r.created, s.r.deleted, Ids(s.r.gone))
            && (s.r.cur.Some? ==> s.r.cur.value in s.r.surfaces)
            && (forall id: ResId :: InMap(s.reses, id) || InList(s.r.deleted, id) ==>
                  id in s.r.surfaces && s.r.surfaces[id].refCount == if s.r.cur == Some(id) then 2 else 1)
            && (forall k :: 0 <= k < |s.r.deleted| ==>
                  s.r.deleted[k].stamp <= s.r.frameIdx && s.r.frameIdx - s.r.deleted[k].stamp <= MAX_AGE)
            && (forall j, k :: 0 <= j < k < |s.r.deleted| ==> s.r.deleted[j].stamp <= s.r.deleted[k].stamp)
            && (forall k :: 0 <= k < |s.r.gone| ==> s.r.gone[k].freedAt - s.r.gone[k].removedAt >= 31)
            && (forall k :: 0 <= k < |s.r.released| ==> s.r.released[k].freedAt - s.r.released[k].removedAt >= 31)
  {
    InitInv();
    RunKeepsInv(INIT, commands);
    var s := Run(INIT, commands);
    forall id: ResId | InMap(s.reses, id) || InList(s.r.deleted, id) ensures id in s.r.surfaces {
      if InMap(s.reses, id) {
        var h :| h in s.reses && s.reses[h] == Some(id);
        MappedIsLive(s.reses, s.r, h);
      } else {
        var k :| 0 <= k < |s.r.deleted| && s.r.deleted[k].res == id;
        ListedIsLive(s.reses, s.r, k);
      }
    }
  }

  // ---------------------------------------------------------------- what each command does

  /** Handles other than `h` keep what they had. */
  ghost predicate OthersKept(a: map<Handle, Option<ResId>>, b: map<Handle, Option<ResId>>, h: Handle) {
    forall g :: g != h ==> (g in a <==> g in b) && (g in a ==> a[g] == b[g])
  }

  /** A removed resource leaves the map, whatever is shown, and joins the list with the current frame; nothing else changes. */
  lemma RemoveDoes(s: Server, h: Handle)
    ensures var t := Step(s, FrameRemove(h));
            && OthersKept(s.reses, t.reses, h) && t.r.surfaces == s.r.surfaces && t.r.cur == s.r.cur && t.r.gone == s.r.gone
            && (if h in s.reses && s.reses[h].Some? then
                  h !in t.reses && t.r.deleted == s.r.deleted + [Entry(s.r.frameIdx, s.reses[h].value, s.r.begins)]
                else t == s)
  {
  }

  /**
   * After a create the handle maps to a new resource with one reference, or to none if the surface could not be
   * created; what it mapped to before joins the list.
   */
  lemma CreateDoes(s: Server, h: Handle, vaId: Option<nat>)
    requires Inv(s)
    ensures var t := Step(s, FrameCreate(h, vaId));
            && OthersKept(s.reses, t.reses, h) && h in t.reses && t.r.cur == s.r.cur && t.r.gone == s.r.gone
            && t.r.deleted == s.r.deleted + (if h in s.reses && s.reses[h].Some?
                                             then [Entry(s.r.frameIdx, s.reses[h].value, s.r.begins)] else [])
            && (if vaId.Some? then
                  && t.reses[h] == Some(s.r.created) && s.r.created !in s.r.surfaces && t.r.created == s.r.created + 1
                  && t.r.surfaces == s.r.surfaces[s.r.created := Surface(vaId.value, 1)]
                else t.reses[h].None? && t.r.surfaces == s.r.surfaces && t.r.created == s.r.created)
  {
  }

  /** A display of a known handle begins a frame and shows that handle's surface; others and unknown commands do nothing. */
  lemma DisplayDoes(s: Server, h: Handle)
    requires s.r.frameIdx < 0x1_0000_0000_0000_0000
    ensures Step(s, Unknown) == s
    ensures var t := Step(s, FrameDisplay(h));
            if h in s.reses then
              && t.reses == s.reses && t.r.cur == s.reses[h] && t.r.begins == s.r.begins + 1
              && t.r.frameIdx == (if s.r.frameIdx == 0xffff_ffff_ffff_ffff then 0 else s.r.frameIdx + 1)
            else t == s
  {
    if h in s.reses {
      var r := BeginFrame(s.r);
      DrawShows(r, s.reses[h]);
      RetireKeepsCounts(Draw(r, s.reses[h]), 0);
    }
  }

  lemma DrawShows(r: Renderer, res: Option<ResId>)
    ensures var q := Draw(r, res);
            q.cur == res && q.frameIdx == r.frameIdx && q.begins == r.begins && q.deleted == r.deleted && q.gone == r.gone
  {
  }

  lemma ReclaimHistory(r: Renderer, e: Entry)
    ensures var q := Reclaim(r, e);
            && q.frameIdx == r.frameIdx && q.begins == r.begins && q.cur == r.cur
            && q.gone == r.gone + [Freed(e.res, e.removedAt, r.begins)]
  {
  }

  lemma {:induction false} RetireKeepsCounts(r: Renderer, i: nat)
    requires i <= |r.deleted|
    ensures var q := RetireFrom(r, i); q.begins == r.begins && q.frameIdx == r.frameIdx && q.cur == r.cur
    decreases |r.deleted| - i
  {
    if i < |r.deleted| {
      RetireUnfolds(r, i);
      if Age(r, r.deleted[i]) > MAX_AGE {
        ReclaimHistory(r, r.deleted[i]);
        RetireKeepsCounts(Reclaimed(r, i), i);
      } else {
        RetireKeepsCounts(Kept(r, i), i + 1);
      }
    }
  }

  // ---------------------------------------------------------------- exactly 31 frames

  /** Until the frame index wraps, stamps are counts of begun frames; deletions came exactly 31 frames after removal. */
  ghost predicate Timed(r: Renderer, maxAge: nat) {
    && r.frameIdx == r.begins
    && (forall k :: 0 <= k < |r.deleted| ==>
          r.deleted[k].stamp == r.deleted[k].removedAt <= r.begins && r.begins - r.deleted[k].removedAt <= maxAge)
    && (forall k :: 0 <= k < |r.gone| ==> r.gone[k].freedAt - r.gone[k].removedAt == 31)
  }

  /** The first `i` entries are at most 30 frames old. */
  ghost predicate YoungUpto(r: Renderer, i: nat) {
    forall k :: 0 <= k < i && k < |r.deleted| ==> r.begins - r.deleted[k].removedAt <= 30
  }

  lemma ReclaimTimed(r: Renderer, i: nat)
    requires i < |r.deleted| && Timed(r, 31) && YoungUpto(r, i) && Age(r, r.deleted[i]) > MAX_AGE
    ensures Timed(Reclaimed(r, i), 31) && YoungUpto(Reclaimed(r, i), i)
  {
    var e := r.deleted[i];
    ReclaimHistory(r, e);
    assert e.removedAt + 31 == r.begins;
  }

  lemma KeptTimed(r: Renderer, i: nat)
    requires i < |r.deleted| && Timed(r, 31) && YoungUpto(r, i) && Age(r, r.deleted[i]) <= MAX_AGE
    ensures Kept(r, i) == r && YoungUpto(r, i + 1)
  {
    assert r.deleted[i := r.deleted[i]] == r.deleted;
  }

  lemma {:induction false} RetireTimed(r: Renderer, i: nat)
    requires i <= |r.deleted| && Timed(r, 31) && YoungUpto(r, i)
    ensures Timed(RetireFrom(r, i), 30)
    decreases |r.deleted| - i
  {
    if i < |r.deleted| {
      RetireUnfolds(r, i);
      if Age(r, r.deleted[i]) > MAX_AGE {
        ReclaimTimed(r, i);
        RetireTimed(Reclaimed(r, i), i);
      } else {
        KeptTimed(r, i);
        RetireTimed(r, i + 1);
      }
    }
  }

  lemma StepTimed(s: Server, c: Command)
    requires Timed(s.r, 30) && s.r.begins + 1 < 0x1_0000_0000_0000_0000
    ensures Timed(Step(s, c).r, 30) && Step(s, c).r.begins <= s.r.begins + 1
  {
    if c.FrameDisplay? && c.handle in s.reses {
      var r := BeginFrame(s.r);
      assert Timed(r, 31);
      DrawShows(r, s.reses[c.handle]);
      RetireTimed(Draw(r, s.reses[c.handle]), 0);
      RetireKeepsCounts(Draw(r, s.reses[c.handle]), 0);
    }
  }

  lemma {:induction false} RunTimed(s: Server, commands: seq<Command>)
    requires Timed(s.r, 30) && s.r.begins + |commands| < 0x1_0000_0000_0000_0000
    ensures Timed(Run(s, commands).r, 30)
    decreases |commands|
  {
    if commands != [] {
      StepTimed(s, commands[0]);
      RunTimed(Step(s, commands[0]), commands[1..]);
    }
  }

  /**
   * In every run short enough not to wrap the frame index, a removed resource is deleted by exactly the 31st
   * frame begun after its removal: never later, and with RunIsSafe never earlier.
   */
  lemma DeletedAtThirtyFirstFrame(commands: seq<Command>)
    requires |commands| < 0x1_0000_0000_0000_0000
    ensures var r := Run(INIT, commands).r;
            && (forall k :: 0 <= k < |r.gone| ==> r.gone[k].freedAt - r.gone[k].removedAt == 31)
            && (forall k :: 0 <= k < |r.deleted| ==> r.begins - r.deleted[k].removedAt <= 30)
  {
    RunTimed(INIT, commands);
  }

  // ---------------------------------------------------------------- shutdown

  /** Before shutdown's flush every entry is young, so its retireFrame changes nothing. */
  lemma {:induction false} RetireIdle(r: Renderer, i: nat)
    requires i <= |r.deleted| && Stamped(r, |r.deleted|)
    ensures RetireFrom(r, i) == r
    decreases |r.deleted| - i
  {
    if i < |r.deleted| {
      assert r.deleted[i := r.deleted[i]] == r.deleted;
      RetireIdle(r, i + 1);
    }
  }

  lemma {:induction false} DropAllStep(s: Server, order: seq<Handle>)
    requires Inv(s)
    ensures Inv(DropAll(s, order))
    ensures forall h :: h in DropAll(s, order).reses <==> h in s.reses && h !in order
    ensures DropAll(s, order).r == s.r.(deleted := DropAll(s, order).r.deleted)
    decreases |order|
  {
    if order != [] {
      var h := order[0];
      if h in s.reses {
        DropStep(s, h);
        DropAllStep(Dropped(s, h), order[1..]);
      } else {
        assert s.reses - {h} == s.reses;
        DropAllStep(s, order[1..]);
      }
      assert order == [h] + order[1..];
    }
  }

  lemma InListCons(deleted: seq<Entry>)
    requires deleted != []
    ensures forall id: ResId :: InList(deleted, id) <==> id == deleted[0].res || InList(deleted[1..], id)
  {
  }

  /** What must hold for the flush alone: the map is empty and the current surface no longer matters. */
  ghost predicate Flushable(r: Renderer) {
    !r.fault && Partition(map[], r.created, r.deleted, Ids(r.gone)) && Live(r)
  }

  function FlushedHead(r: Renderer): Renderer
    requires r.deleted != []
  {
    ForceRelease(r, r.deleted[0]).(
      gone := r.gone + [Freed(r.deleted[0].res, r.deleted[0].removedAt, r.begins)], deleted := r.deleted[1..])
  }

  lemma FlushHead(r: Renderer)
    requires Flushable(r) && r.deleted != []
    ensures Flushable(FlushedHead(r))
    ensures FlushedHead(r).surfaces == r.surfaces - {r.deleted[0].res}
    ensures Flush(r) == Flush(FlushedHead(r))
  {
    var e := r.deleted[0];
    ListedIsLive(map[], r, 0);
    MoveToGone(map[], r.created, r.deleted, Ids(r.gone), 0);
    IdsAppend(r.gone, Freed(e.res, e.removedAt, r.begins));
    assert r.surfaces[e.res := r.surfaces[e.res].(refCount := 1)] - {e.res} == r.surfaces - {e.res};
    assert Without(r.deleted, 0) == r.deleted[1..];
    ReleaseOne(r, FlushedHead(r), e);
  }

  lemma {:induction false} FlushReleasesList(r: Renderer)
    requires Flushable(r)
    ensures Flushable(Flush(r)) && Flush(r).deleted == [] && Flush(r).created == r.created
    ensures forall id: ResId :: id in Flush(r).surfaces <==> id in r.surfaces && !InList(r.deleted, id)
    decreases |r.deleted|
  {
    if r.deleted != [] {
      FlushHead(r);
      FlushReleasesList(FlushedHead(r));
      InListCons(r.deleted);
    }
  }

  /**
   * After deinit every resource ever created has been deleted exactly once without touching a destroyed
   * surface, each surface was released at most once, and the only surfaces left are those retireFrame
   * had already leaked.
   */
  lemma ShutdownDeletesEverything(s: Server, order: seq<Handle>)
    requires Inv(s) && forall h :: h in s.reses ==> h in order
    ensures var q := Shutdown(s, order).r;
            && !q.fault && q.deleted == [] && Shutdown(s, order).reses == map[]
            && q.created == s.r.created
            && (forall id :: 0 <= id < s.r.created ==> id in Ids(q.gone))
            && (forall j, k :: 0 <= j < k < |q.gone| ==> q.gone[j].res != q.gone[k].res)
            && (forall j, k :: 0 <= j < k < |q.released| ==> q.released[j].res != q.released[k].res)
            && (forall id: ResId :: id in q.surfaces <==> id in s.r.surfaces && id in Ids(s.r.gone))
            && (forall id: ResId :: id < s.r.created ==> (WasReleased(q.released, id) <==> id !in q.surfaces))
  {
    var t := DropAll(s, order);
    DropAllStep(s, order);
    assert t.reses == map[];
    RetireIdle(t.r, 0);
    FlushReleasesList(t.r);
    var q := Flush(t.r);
    forall id | 0 <= id < s.r.created ensures id in Ids(q.gone) && (InList(t.r.deleted, id) <==> id !in Ids(t.r.gone)) {
      assert !InMap(t.reses, id);
      assert InMap(t.reses, id) || InList(q.deleted, id) || id in Ids(q.gone);
    }
  }

  // ---------------------------------------------------------------- leaked surfaces

  /** No deleted resource has left its surface behind. */
  ghost predicate NoLeak(r: Renderer) {
    forall id: ResId :: id in Ids(r.gone) ==> id !in r.surfaces
  }

  /** The guard compares VA ids, with the invalid id 0xffffffff when no surface is shown. */
  lemma SharesExactly(r: Renderer, id: ResId)
    requires id in r.surfaces && (r.cur.Some? ==> r.cur.value in r.surfaces)
    ensures SharesCurrentId(r, id) <==>
            r.surfaces[id].vaId == if r.cur.Some? then r.surfaces[r.cur.value].vaId else 0xffff_ffff
  {
  }

  /** The guard of retireFrame spares no aged entry: each of their surfaces is released. */
  ghost predicate Clear(r: Renderer) {
    forall k :: 0 <= k < |r.deleted| && Age(r, r.deleted[k]) > MAX_AGE ==> !SharesCurrentId(r, r.deleted[k].res)
  }

  /** A surface left behind stays behind, and a new one is left behind exactly when the guard spares it. */
  lemma LeakExactlyOnSharedId(reses: map<Handle, Option<ResId>>, r: Renderer, q: Renderer)
    requires Retired(r, 0, q) && Live(r) && Partition(reses, r.created, r.deleted, Ids(r.gone))
    ensures NoLeak(q) <==> NoLeak(r) && Clear(r)
  {
    if NoLeak(q) {
      forall id: ResId | id in Ids(r.gone) ensures id !in r.surfaces {
        assert !Aged(r, 0, id);
      }
      forall k | 0 <= k < |r.deleted| && Age(r, r.deleted[k]) > MAX_AGE ensures !SharesCurrentId(r, r.deleted[k].res) {
        assert Aged(r, 0, r.deleted[k].res);
      }
    }
  }

  /** What a display request meets when it retires. */
  function Shown(s: Server, h: Handle): Renderer
    requires h in s.reses
  {
    Draw(BeginFrame(s.r), s.reses[h])
  }

  /**
   * Not every surface is released: a served display request leaves one behind exactly when an aged
   * resource's surface has the VA id of the surface now shown (or the invalid id when none is shown).
   */
  lemma DisplayLeaksExactlyOnSharedId(s: Server, h: Handle)
    requires Inv(s) && h in s.reses
    ensures NoLeak(DisplayRequest(s, h).r) <==> NoLeak(s.r) && Clear(Shown(s, h))
  {
    BeginStep(s);
    DrawStep(s.reses, BeginFrame(s.r), h);
    DisplayStep(s, h);
    LeakExactlyOnSharedId(s.reses, Shown(s, h), DisplayRequest(s, h).r);
  }

  ghost predicate ClearStep(s: Server, c: Command) {
    c.FrameDisplay? && c.handle in s.reses ==> Clear(Shown(s, c.handle))
  }

  /** No display request of the run meets an aged resource that shares the VA id then shown. */
  ghost predicate ClearRun(s: Server, commands: seq<Command>)
    decreases |commands|
  {
    commands == [] || (ClearStep(s, commands[0]) && ClearRun(Step(s, commands[0]), commands[1..]))
  }

  lemma StepLeaksExactly(s: Server, c: Command)
    requires Inv(s)
    ensures NoLeak(Step(s, c).r) <==> NoLeak(s.r) && ClearStep(s, c)
  {
    match c {
      case FrameCreate(h, va) =>
        assert s.r.created !in Ids(s.r.gone);
        assert forall id: ResId :: id in s.r.surfaces ==> id in Step(s, c).r.surfaces;
      case FrameRemove(h) =>
      case FrameDisplay(h) =>
        if h in s.reses {
          DisplayLeaksExactlyOnSharedId(s, h);
        }
      case Unknown =>
    }
  }

  lemma {:induction false} RunLeaksExactly(s: Server, commands: seq<Command>)
    requires Inv(s)
    ensures NoLeak(Run(s, commands).r) <==> NoLeak(s.r) && ClearRun(s, commands)
    decreases |commands|
  {
    if commands != [] {
      StepKeepsInv(s, commands[0]);
      StepLeaksExactly(s, commands[0]);
      RunLeaksExactly(Step(s, commands[0]), commands[1..]);
    }
  }

  /** Over whole runs: shutdown leaves no surface exactly when no display request meets the guard. */
  lemma EverySurfaceReleasedIff(commands: seq<Command>, order: seq<Handle>)
    requires forall h :: h in Run(INIT, commands).reses ==> h in order
    ensures Shutdown(Run(INIT, commands), order).r.surfaces == map[] <==> ClearRun(INIT, commands)
  {
    InitInv();
    RunKeepsInv(INIT, commands);
    RunLeaksExactly(INIT, commands);
    var s := Run(INIT, commands);
    ShutdownDeletesEverything(s, order);
    var q := Shutdown(s, order).r;
    assert q.surfaces == map[] <==> forall id: ResId :: id !in q.surfaces;
  }

  /** Live surfaces have valid, pairwise different VA ids. */
  ghost predicate DistinctIds(surfaces: map<ResId, Surface>) {
    && (forall id: ResId :: id in surfaces ==> surfaces[id].vaId != VA_INVALID_SURFACE)
    && (forall i, j :: i in surfaces && j in surfaces && i != j ==> surfaces[i].vaId != surfaces[j].vaId)
  }

  /** What the caller can see before a create: the driver returned a valid id no live surface has. */
  ghost predicate FreshId(s: Server, c: Command) {
    c.FrameCreate? && c.surface.Some? ==>
      && c.surface.value != VA_INVALID_SURFACE
      && forall id: ResId :: id in s.r.surfaces ==> s.r.surfaces[id].vaId != c.surface.value
  }

  ghost predicate FreshRun(s: Server, commands: seq<Command>)
    decreases |commands|
  {
    commands == [] || (FreshId(s, commands[0]) && FreshRun(Step(s, commands[0]), commands[1..]))
  }

  lemma DistinctNeverShare(reses: map<Handle, Option<ResId>>, r: Renderer, k: nat)
    requires Core(reses, r, 0) && CurrentMapped(reses, r) && DistinctIds(r.surfaces) && k < |r.deleted|
    ensures !SharesCurrentId(r, r.deleted[k].res)
  {
  }

  lemma DistinctAfterDraw(s: Server, h: Handle)
    requires Inv(s) && DistinctIds(s.r.surfaces) && h in s.reses
    ensures DistinctIds(Draw(BeginFrame(s.r), s.reses[h]).surfaces)
  {
  }

  lemma DistinctAfterRetire(r: Renderer, q: Renderer)
    requires DistinctIds(r.surfaces) && Retired(r, 0, q)
    ensures DistinctIds(q.surfaces)
  {
  }

  lemma FreshDisplay(s: Server, h: Handle)
    requires Inv(s) && DistinctIds(s.r.surfaces) && h in s.reses
    ensures Clear(Shown(s, h)) && DistinctIds(DisplayRequest(s, h).r.surfaces)
  {
    DisplayStep(s, h);
    DistinctAfterDraw(s, h);
    DistinctAfterRetire(Shown(s, h), DisplayRequest(s, h).r);
    forall k | 0 <= k < |Shown(s, h).deleted| ensures !SharesCurrentId(Shown(s, h), Shown(s, h).deleted[k].res) {
      DistinctNeverShare(s.reses, Shown(s, h), k);
    }
  }

  lemma FreshStep(s: Server, c: Command)
    requires Inv(s) && DistinctIds(s.r.surfaces) && FreshId(s, c)
    ensures ClearStep(s, c) && DistinctIds(Step(s, c).r.surfaces)
  {
    if c.FrameDisplay? && c.handle in s.reses {
      FreshDisplay(s, c.handle);
    }
  }

  lemma {:induction false} FreshRunIsClear(s: Server, commands: seq<Command>)
    requires Inv(s) && DistinctIds(s.r.surfaces) && FreshRun(s, commands)
    ensures ClearRun(s, commands)
    decreases |commands|
  {
    if commands != [] {
      StepKeepsInv(s, commands[0]);
      FreshStep(s, commands[0]);
      FreshRunIsClear(Step(s, commands[0]), commands[1..]);
    }
  }

  /** With fresh valid ids, every surface is released exactly once by the time shutdown is complete. */
  lemma EverySurfaceReleasedOnce(commands: seq<Command>, order: seq<Handle>)
    requires FreshRun(INIT, commands) && forall h :: h in Run(INIT, commands).reses ==> h in order
    ensures var q := Shutdown(Run(INIT, commands), order).r;
            && !q.fault && q.surfaces == map[]
            && (forall id: ResId :: id < q.created ==> WasReleased(q.released, id))
            && (forall j, k :: 0 <= j < k < |q.released| ==> q.released[j].res != q.released[k].res)
  {
    InitInv();
    FreshRunIsClear(INIT, commands);
    EverySurfaceReleasedIff(commands, order);
    RunKeepsInv(INIT, commands);
    ShutdownDeletesEverything(Run(INIT, commands), order);
  }

  // ---------------------------------------------------------------- a leaking run

  function Displays(h: Handle, n: nat): seq<Command> {
    seq(n, i => FrameDisplay(h))
  }

  /** Two buffers of an unsupported format (both with the invalid id), the first removed, the second shown `n` times. */
  function ShownTwin(n: nat): Server {
    Server(map[2 := Some(1)],
           Renderer(n, if n == 0 then None else Some(1), [Entry(0, 0, 0)],
                    map[0 := Surface(VA_INVALID_SURFACE, 1), 1 := Surface(VA_INVALID_SURFACE, if n == 0 then 1 else 2)],
                    n, 2, [], [], false))
  }

  lemma ShownTwinRuns(n: nat, m: nat)
    requires n + m <= MAX_AGE
    ensures Run(ShownTwin(n), Displays(2, m)) == ShownTwin(n + m)
  {
    var after := (k: nat) => ShownTwin(k);
    forall k: nat | k < n + m ensures Step(after(k), FrameDisplay(2)) == after(k + 1) {
      ShownTwinStep(k);
    }
    DisplaysRun(after, 2, n, m);
  }

  lemma {:induction false} DisplaysRun(after: nat -> Server, h: Handle, n: nat, m: nat)
    requires forall k: nat :: k < n + m ==> Step(after(k), FrameDisplay(h)) == after(k + 1)
    ensures Run(after(n), Displays(h, m)) == after(n + m)
    decreases m
  {
    if m > 0 {
      assert Displays(h, m)[1..] == Displays(h, m - 1);
      DisplaysRun(after, h, n + 1, m - 1);
    }
  }

  lemma ShownTwinStep(n: nat)
    requires n < MAX_AGE
    ensures Step(ShownTwin(n), FrameDisplay(2)) == ShownTwin(n + 1)
  {
    var r := Draw(BeginFrame(ShownTwin(n).r), Some(1));
    assert r.surfaces == ShownTwin(n + 1).r.surfaces;
    assert r == ShownTwin(n + 1).r;
    TwinStays(r);
  }

  /** A single young entry is not retired. */
  lemma TwinStays(r: Renderer)
    requires |r.deleted| == 1 && r.deleted[0].stamp <= r.frameIdx && Age(r, r.deleted[0]) <= MAX_AGE
    ensures RetireFrame(r) == r
  {
    assert r.deleted[0 := r.deleted[0]] == r.deleted;
    assert RetireFrom(r, 1) == r;
  }

  lemma TwinLeaks()
    ensures 0 in Ids(Step(ShownTwin(MAX_AGE), FrameDisplay(2)).r.gone)
    ensures 0 in Step(ShownTwin(MAX_AGE), FrameDisplay(2)).r.surfaces
    ensures Step(ShownTwin(MAX_AGE), FrameDisplay(2)).reses == map[2 := Some(1)]
  {
    var s := ShownTwin(MAX_AGE);
    var r := Draw(BeginFrame(s.r), Some(1));
    assert Age(r, r.deleted[0]) == 31 && SharesCurrentId(r, 0);
    var q := Reclaim(r, r.deleted[0]).(deleted := Without(r.deleted, 0));
    assert RetireFrom(r, 0) == RetireFrom(q, 0) == q;
    assert Ids(q.gone)[0] == 0;
  }

  lemma TwinIsReached()
    ensures ShownTwin(0) == Step(Step(Step(INIT, FrameCreate(1, Some(VA_INVALID_SURFACE))),
                                      FrameCreate(2, Some(VA_INVALID_SURFACE))), FrameRemove(1))
  {
  }

  lemma ThreeStepsKeepInv(s: Server, a: Command, b: Command, c: Command)
    requires Inv(s)
    ensures Inv(Step(Step(Step(s, a), b), c))
  {
    StepKeepsInv(s, a);
    StepKeepsInv(Step(s, a), b);
    StepKeepsInv(Step(Step(s, a), b), c);
  }

  lemma TwinStartInv()
    ensures Inv(ShownTwin(0))
  {
    InitInv();
    ThreeStepsKeepInv(INIT, FrameCreate(1, Some(VA_INVALID_SURFACE)), FrameCreate(2, Some(VA_INVALID_SURFACE)), FrameRemove(1));
    TwinIsReached();
  }

  lemma TwinAgedInv()
    ensures Inv(ShownTwin(MAX_AGE))
  {
    TwinStartInv();
    ShownTwinRuns(0, MAX_AGE);
    ReachedInv(ShownTwin(0), Displays(2, MAX_AGE), ShownTwin(MAX_AGE));
  }

  lemma ReachedInv(s: Server, commands: seq<Command>, t: Server)
    requires Inv(s) && Run(s, commands) == t
    ensures Inv(t)
  {
    RunKeepsInv(s, commands);
  }

  /** A surface left behind is still there after shutdown. */
  lemma LeakSurvivesShutdown(s: Server, c: Command, order: seq<Handle>, id: ResId)
    requires Inv(s) && id in Ids(Step(s, c).r.gone) && id in Step(s, c).r.surfaces
    requires forall h :: h in Step(s, c).reses ==> h in order
    ensures id in Shutdown(Step(s, c), order).r.surfaces
  {
    StepKeepsInv(s, c);
    ShutdownDeletesEverything(Step(s, c), order);
  }

  /** After 30 displays of the second buffer nothing is left behind; the next one deletes the first without its surface. */
  lemma UnsupportedFormatLeaks()
    ensures ShownTwin(0) == Step(Step(Step(INIT, FrameCreate(1, Some(VA_INVALID_SURFACE))),
                                      FrameCreate(2, Some(VA_INVALID_SURFACE))), FrameRemove(1))
    ensures Run(ShownTwin(0), Displays(2, MAX_AGE)) == ShownTwin(MAX_AGE) && NoLeak(ShownTwin(MAX_AGE).r)
    ensures !NoLeak(Step(ShownTwin(MAX_AGE), FrameDisplay(2)).r)
  {
    TwinIsReached();
    ShownTwinRuns(0, MAX_AGE);
    TwinLeaks();
  }

  /** And shutdown does not release it. */
  lemma UnsupportedFormatLeaksForGood()
    ensures 0 in Shutdown(Step(ShownTwin(MAX_AGE), FrameDisplay(2)), [2]).r.surfaces
  {
    TwinAgedInv();
    TwinLeaks();
    LeakSurvivesShutdown(ShownTwin(MAX_AGE), FrameDisplay(2), [2], 0);
  }
}
