/** Whole runs of a node: any sequence of requests to any volumes, each of which may be cut short by an
    exception or a crash at any file effect, with reboots and workload writes in between.
 */
module VolumeRuns {
  import opened Outcomes
  import opened Faults
  import opened Volumes

  datatype Request =
    | Create(v: Volume, p: Params, source: Source)
    | Delete(v: Volume)
    | Grow(v: Volume, newSize: nat, capacity: int, physical: nat)
    | TakeSnapshot(v: Volume, name: string, useCow: bool, freezeFs: bool)
    | DropSnapshot(v: Volume, name: string)
    | Collect(v: Volume, dryRun: bool)
    | Attach(v: Volume)
    | Detach(v: Volume)
    | Save(v: Volume, data: Data)
    | Reboot
  {
    function Objects(): set<Volume> {
      if Reboot? then {} else if Create? then {v} + source.Objects() else {v}
    }

    /** The only requests that attach or detach the image of w. */
    predicate Moves(w: Volume) {
      Reboot? || ((Attach? || Detach?) && v == w)
    }

    /** The only requests that may touch the files of snapshot k of volume w. */
    predicate Concerns(w: Volume, k: SnapKey) {
      || ((TakeSnapshot? || DropSnapshot?) && v == w && k == SnapKey(name, false))
      || (Create? && source.FromVolume? && source.volume == w && k == v.CloneKey())
    }
  }

  /** Which requests a run may contain. `Any`: all of them, at any time. `Fresh`: no volume is created over one
      that is marked as deleted. `Roomy`: in addition, no attempt that would change the image asks for less than
      is recorded for the volume, and no clone for less than its source records. */
  datatype Discipline = Any | Fresh | Roomy {
    predicate Allows(r: Request)
      reads r.Objects()
    {
      && (!Any? && r.Create? ==> !r.v.IsDeleted())
      && (Roomy? && r.Create? ==> r.v.Roomy(r.p.size, r.source))
    }

    /** What every reachable state of such a run satisfies; `blurred` are the volumes whose size is in doubt. */
    ghost predicate Holds(v: Volume, blurred: set<Volume>)
      reads v
    {
      Safe(v) && (Roomy? && v !in blurred ==> v.FitOk())
    }

    ghost predicate Safe(v: Volume)
      reads v
    {
      v.Ok() && (!Any? ==> v.ReadyIsBacked() && v.LoopOk())
    }

    /** So a ready image of any other volume has exactly its recorded size. */
    lemma ReadyIsExact(v: Volume, blurred: set<Volume>)
      requires Roomy? && Holds(v, blurred) && v !in blurred && v.IsReady()
      ensures v.image.Some? && v.meta.value.size == Some(|v.image.value|)
    {
    }
  }

  /** What a request that reports success has done to the files of its volume. */
  predicate Succeeded(r: Request, before: Files, after: Files) {
    match r
    case Create(_, p, _) =>
      after.meta.Some? && (after.meta.value.ready || (before.image.Some? && p.size <= |before.image.value|))
    case Delete(_) => after.image.None?
    case Grow(_, newSize, _, _) => after.meta.Some? && (after == before || after.meta.value.size == Some(newSize))
    case TakeSnapshot(_, name, _, _) =>
      Lookup(after.snaps, SnapKey(name, false)).Ready() && after.snaps[SnapKey(name, false)].img == after.image
    case DropSnapshot(_, name) => SnapKey(name, false) !in after.snaps
    case Collect(_, dryRun) => dryRun ==> after == before
    case Save(_, data) => after == before || after == before.(image := Some(data))
    case _ => after == before
  }

  // ---------------------------------------------------------------- volumes whose size is in doubt

  /** What a volume keeps in files. */
  datatype Files = Files(meta: Option<Meta>, image: Option<Data>, snaps: Snaps)

  const NO_FILES := Files(None, None, map[])

  function FilesOf(v: Volume): Files
    reads v
  {
    Files(v.meta, v.image, v.snaps)
  }

  type Disk = map<Volume, Files>

  function DiskOf(vs: set<Volume>): Disk
    reads vs
  {
    map v | v in vs :: FilesOf(v)
  }

  /** What an expansion did to the recorded size: it changed the image and not the size (`Cut`), or it set a size that
      nothing of the volume exceeds (`Mended`). */
  datatype Effect = Plain | Cut | Mended

  function EffectOf(r: Request, before: Files, after: Files): Effect {
    if !r.Grow? then Plain
    else if after.meta == before.meta then (if after.image != before.image then Cut else Plain)
    else if Fits(Some(NO_META.(size := Some(r.newSize))), before.image, before.snaps) then Mended
    else Plain
  }

  /** The volumes whose size is in doubt after a request that changed the files of its volume so: a cut-short
      expansion leaves its volume in doubt, until one mends it, and so does making a volume from one in doubt. */
  function Blur(blurred: set<Volume>, r: Request, before: Files, after: Files): set<Volume> {
    if r.Grow? then
      match EffectOf(r, before, after)
      case Plain => blurred
      case Cut => blurred + {r.v}
      case Mended => blurred - {r.v}
    else if r.Create? && !r.source.Blank? && r.source.volume in blurred && after != before then blurred + {r.v}
    else blurred
  }

  /** The files of a request's volume. */
  function At(disk: Disk, r: Request): Files {
    if r.Reboot? || r.v !in disk then NO_FILES else disk[r.v]
  }

  /** After the first n requests of a run, whose states are in the trace. */
  function Blurred(rs: seq<Request>, trace: seq<Disk>, n: nat): set<Volume>
    requires n <= |rs| && n < |trace|
  {
    if n == 0 then {}
    else Blur(Blurred(rs, trace, n - 1), rs[n - 1], At(trace[n - 1], rs[n - 1]), At(trace[n], rs[n - 1]))
  }

  lemma {:induction false} BlurredPrefix(rs: seq<Request>, trace: seq<Disk>, more: seq<Disk>, n: nat)
    requires n <= |rs| && n < |trace| && trace <= more
    ensures Blurred(rs, trace, n) == Blurred(rs, more, n)
  {
    if n > 0 {
      BlurredPrefix(rs, trace, more, n - 1);
    }
  }

  /** A volume is never in doubt because of what happens to others, unless it is made from one of them. */
  lemma {:induction false} NotBlurred(rs: seq<Request>, trace: seq<Disk>, n: nat, w: Volume)
    requires n <= |rs| && n < |trace|
    requires forall i | 0 <= i < n && rs[i].Grow? && rs[i].v == w ::
               EffectOf(rs[i], At(trace[i], rs[i]), At(trace[i + 1], rs[i])) != Cut
    requires forall i | 0 <= i < n && rs[i].Create? && rs[i].v == w :: rs[i].source.Blank?
    ensures w !in Blurred(rs, trace, n)
  {
    if n > 0 {
      NotBlurred(rs, trace, n - 1, w);
    }
  }

  /** What a source that fits can make fits into a request that leaves room for it. */
  lemma SourceFits(v: Volume, source: Source, p: Params)
    requires v.Roomy(p.size, source) && (!source.Blank? ==> source.volume.FitOk())
    ensures LargestFill(v.OriginAsked(source, p), p.size) <= p.size
  {
  }

  /** create_volume keeps its volume and its source safe, and touches no snapshot but its own temporary one. */
  method CreateSafely(r: Request, poolCow: bool, d: Discipline) returns (o: Outcome)
    requires r.Create? && d.Allows(r)
    requires forall v | v in r.Objects() :: d.Safe(v) && v.env == r.v.env
    modifies r.v.env, r.Objects()
    ensures forall v | v in r.Objects() :: d.Safe(v) && v.loops == old(v.loops)
    ensures forall v | v in r.Objects() && !(r.source.FromVolume? && v == r.source.volume) :: v.snaps == old(v.snaps)
    ensures r.source.FromVolume? ==>
              && SameBut(old(r.source.volume.snaps), r.source.volume.snaps, r.v.CloneKey())
              && FreshOrSame(old(r.source.volume.snaps), r.source.volume.snaps, r.v.CloneKey(),
                             old(r.source.volume.meta), old(r.source.volume.image))
    ensures !r.source.Blank? && r.source.volume != r.v ==>
              r.source.volume.meta == old(r.source.volume.meta) && r.source.volume.image == old(r.source.volume.image)
    ensures || (r.v.meta == old(r.v.meta) && r.v.image == old(r.v.image))
            || (r.v.meta.Some?
                && Attempted(old(r.v.MetaOr().(ready := false)), old(r.v.image), r.v.meta.value, r.v.image, r.p,
                                            old(r.v.OriginAsked(r.source, r.p))))
    ensures o.Done? ==> r.v.meta.Some? && (r.v.IsReady() || old(r.v.LargeEnough(r.p.size)))
  {
    o := r.v.CreateVolume(r.p, r.source, poolCow);
  }

  /** create_volume; a request that leaves room for its source leaves nothing larger than its recorded size. */
  method ServeCreate(r: Request, poolCow: bool, d: Discipline, ghost blurred: set<Volume>) returns (o: Outcome)
    requires r.Create? && d.Allows(r)
    requires forall v | v in r.Objects() :: d.Holds(v, blurred) && v.env == r.v.env
    modifies r.v.env, r.Objects()
    ensures forall v | v in r.Objects() :: d.Holds(v, Blur(blurred, r, old(FilesOf(r.v)), FilesOf(r.v)))
    ensures o.Done? ==> r.v.meta.Some? && (r.v.IsReady() || old(r.v.LargeEnough(r.p.size)))
    ensures d.Roomy? ==> forall v | v in r.Objects() :: SizeKept(old(v.meta), v.meta)
    ensures forall v | v in r.Objects() && !(r.source.FromVolume? && v == r.source.volume) :: v.snaps == old(v.snaps)
    ensures r.source.FromVolume? ==> SameBut(old(r.source.volume.snaps), r.source.volume.snaps, r.v.CloneKey())
    ensures forall v | v in r.Objects() :: v.loops == old(v.loops)
  {
    ghost var f, origin := FilesOf(r.v), r.v.OriginAsked(r.source, r.p);
    ghost var from := if r.source.Blank? then f else FilesOf(r.source.volume);
    if d.Roomy? && (r.source.Blank? || r.source.volume !in blurred) {
      SourceFits(r.v, r.source, r.p);
    }
    o := CreateSafely(r, poolCow, d);
    if d.Roomy? {
      CreationFits(f.meta, f.image, r.v.meta, r.v.image, f.snaps, r.p, origin);
      if r.source.FromVolume? && r.source.volume !in blurred {
        SnapshotFits(from.meta, from.image, from.snaps, r.source.volume.snaps, r.v.CloneKey());
      }
    }
  }

  /** The DeleteSnapshot request: delete it, then remove its volume if that was deleted and this was the last entry. */
  method DeleteSnapshotAndCollect(v: Volume, name: string, now: int) returns (o: Outcome)
    requires v.Ok()
    modifies v.env, v
    ensures v.Ok() && v.loops == old(v.loops)
    ensures SameBut(old(v.snaps), v.snaps, SnapKey(name, false))
    ensures v.image == old(v.image) || v.image.None?
    ensures SizeKept(old(v.meta), v.meta)
    ensures old(v.LoopOk() && v.ReadyIsBacked()) ==> v.LoopOk() && v.ReadyIsBacked()
    ensures old(v.FitOk()) ==> v.FitOk()
    ensures o.Done? ==> SnapKey(name, false) !in v.snaps
    ensures o.Done? && old(v.Collectable(now)) ==> v.image.None? && v.Tidy()
    ensures o.Done? && !old(v.Collectable(now)) ==>
              v.meta == old(v.meta) && v.image == old(v.image) && v.dir == old(v.dir)
  {
    o := Done;
    :- v.DeleteSnapshot(SnapKey(name, false));
    var collected;
    o, collected := v.Gc(now, false);
  }

  /** ExpandRawFile. */
  method ServeGrow(r: Request, d: Discipline, ghost blurred: set<Volume>) returns (o: Outcome)
    requires r.Grow? && d.Holds(r.v, blurred)
    modifies r.v.env, r.v`meta, r.v`image
    ensures d.Holds(r.v, Blur(blurred, r, old(FilesOf(r.v)), FilesOf(r.v)))
    ensures SizeKept(old(r.v.meta), r.v.meta)
    ensures r.v.env.Healthy() ==> EffectOf(r, old(FilesOf(r.v)), FilesOf(r.v)) != Cut
    ensures o.Done? ==> Succeeded(r, old(FilesOf(r.v)), FilesOf(r.v))
  {
    var exhausted;
    o, exhausted := r.v.Expand(r.newSize, r.capacity, r.physical);
  }

  /** A request that concerns one volume, and not its size. */
  method ServeOne(r: Request, now: int, d: Discipline, ghost blurred: set<Volume>) returns (o: Outcome)
    requires !r.Create? && !r.Grow? && !r.Reboot? && d.Holds(r.v, blurred)
    modifies r.v.env, r.v
    ensures d.Holds(r.v, blurred)
    ensures SizeKept(old(r.v.meta), r.v.meta)
    ensures forall k | !r.Concerns(r.v, k) :: Lookup(r.v.snaps, k) == old(Lookup(r.v.snaps, k))
    ensures !r.Attach? && !r.Detach? ==> r.v.loops == old(r.v.loops)
    ensures o.Done? ==> Succeeded(r, old(FilesOf(r.v)), FilesOf(r.v))
  {
    match r
    case Delete(v) => o := v.DeleteVolume(now);
    case TakeSnapshot(v, name, c, f) =>
      ghost var m, i, s := v.meta, v.image, v.snaps;
      o := v.CreateSnapshot(SnapKey(name, false), c, f);
      if d.Roomy? && v !in blurred {
        SnapshotFits(m, i, s, v.snaps, SnapKey(name, false));
      }
    case DropSnapshot(v, name) => o := DeleteSnapshotAndCollect(v, name, now);
    case Collect(v, dry) => var x; o, x := v.Gc(now, dry);
    case Attach(v) => o := v.Stage();
    case Detach(v) => o := v.Unstage();
    case Save(v, data) => v.Write(data); o := Done;
  }

  /** The files of a request's volume, as they are. */
  function Here(r: Request): Files
    reads r.Objects()
  {
    if r.Reboot? then NO_FILES else FilesOf(r.v)
  }

  /** No loop device survives a reboot, and every file does. */
  method ServeReboot(d: Discipline, vs: set<Volume>, ghost blurred: set<Volume>) returns (o: Outcome)
    requires forall v | v in vs :: d.Holds(v, blurred)
    modifies vs`loops
    ensures o.Done? && forall v | v in vs :: d.Holds(v, blurred) && v.loops == 0
  {
    forall v | v in vs { v.loops := 0; }
    o := Done;
  }

  /** One request. */
  method Serve(r: Request, now: int, poolCow: bool, d: Discipline, vs: set<Volume>, ghost blurred: set<Volume>)
    returns (o: Outcome)
    requires r.Objects() <= vs && d.Allows(r)
    requires forall v, w | v in vs && w in vs :: v.env == w.env
    requires forall v | v in vs :: d.Holds(v, blurred)
    modifies vs, set v | v in vs :: v.env
    ensures forall v | v in vs :: d.Holds(v, Blur(blurred, r, old(Here(r)), Here(r)))
    ensures forall v, k | v in vs && !r.Concerns(v, k) :: Lookup(v.snaps, k) == old(Lookup(v.snaps, k))
    ensures forall v | v in vs && v !in r.Objects() :: FilesOf(v) == old(FilesOf(v))
    ensures d.Roomy? ==> forall v | v in vs :: SizeKept(old(v.meta), v.meta)
    ensures r.Grow? && r.v.env.Healthy() ==> EffectOf(r, old(Here(r)), Here(r)) != Cut
    ensures forall v | v in vs && !r.Moves(v) :: v.loops == old(v.loops)
    ensures o.Done? ==> Succeeded(r, old(Here(r)), Here(r))
  {
    match r
    case Create(_, _, _) => o := ServeCreate(r, poolCow, d, blurred);
    case Grow(_, _, _, _) => o := ServeGrow(r, d, blurred);
    case Reboot => o := ServeReboot(d, vs, blurred);
    case _ => o := ServeOne(r, now, d, blurred);
  }

  /** No request of the run may touch the files of this snapshot. */
  ghost predicate Untouched(rs: seq<Request>, v: Volume, k: SnapKey) {
    forall r | r in rs :: !r.Concerns(v, k)
  }

  /** One request changed the disk so, and was answered so: no files but those of the volumes it names, and an expansion
      cut short only by a fault; what reports success has been done, and only a creation may not be allowed. */
  ghost predicate Changed(r: Request, o: Option<Outcome>, before: Disk, after: Disk, vs: set<Volume>, d: Discipline) {
    && before.Keys == vs == after.Keys
    && (forall v | v in vs && v !in r.Objects() :: after[v] == before[v])
    && (r.Grow? && r.v.env.Healthy() ==> EffectOf(r, At(before, r), At(after, r)) != Cut)
    && (o.None? ==> r.Create? && !d.Any?)
    && (o == Some(Done) ==> Succeeded(r, At(before, r), At(after, r)))
  }

  /** The answers to the requests of a run, and the states between them. */
  ghost predicate Traces(rs: seq<Request>, outcomes: seq<Option<Outcome>>, trace: seq<Disk>, vs: set<Volume>,
                         d: Discipline) {
    && |outcomes| + 1 == |trace| <= |rs| + 1
    && forall i | 0 <= i < |outcomes| :: Changed(rs[i], outcomes[i], trace[i], trace[i + 1], vs, d)
  }

  lemma TracesMore(rs: seq<Request>, outcomes: seq<Option<Outcome>>, o: Option<Outcome>, trace: seq<Disk>, disk: Disk,
                   vs: set<Volume>, d: Discipline)
    requires 0 < |trace| <= |rs| && Traces(rs, outcomes, trace, vs, d)
    requires Changed(rs[|trace| - 1], o, trace[|trace| - 1], disk, vs, d)
    ensures Traces(rs, outcomes + [o], trace + [disk], vs, d)
  {
    var os, more := outcomes + [o], trace + [disk];
    forall i | 0 <= i < |os| ensures Changed(rs[i], os[i], more[i], more[i + 1], vs, d) {
      if i < |outcomes| {
        assert Changed(rs[i], outcomes[i], trace[i], trace[i + 1], vs, d);
      }
    }
  }

  lemma BlurredMore(rs: seq<Request>, trace: seq<Disk>, disk: Disk)
    requires 0 < |trace| <= |rs|
    ensures var r := rs[|trace| - 1];
            Blurred(rs, trace + [disk], |trace|)
            == Blur(Blurred(rs, trace, |trace| - 1), r, At(trace[|trace| - 1], r), At(disk, r))
  {
    BlurredPrefix(rs, trace, trace + [disk], |trace| - 1);
  }

  /** One request, if the discipline allows it, and what it changed on the disk. None stands for one that it does not
      allow. */
  method ServeIfAllowed(r: Request, now: int, poolCow: bool, d: Discipline, vs: set<Volume>, ghost blurred: set<Volume>)
    returns (o: Option<Outcome>)
    requires r.Objects() <= vs
    requires forall v, w | v in vs && w in vs :: v.env == w.env
    requires forall v | v in vs :: d.Holds(v, blurred)
    modifies vs, set v | v in vs :: v.env
    ensures forall v | v in vs :: d.Holds(v, Blur(blurred, r, At(old(DiskOf(vs)), r), At(DiskOf(vs), r)))
    ensures Changed(r, o, old(DiskOf(vs)), DiskOf(vs), vs, d)
    ensures forall v, k | v in vs && !r.Concerns(v, k) :: Lookup(v.snaps, k) == old(Lookup(v.snaps, k))
    ensures d.Roomy? ==> forall v | v in vs :: SizeKept(old(v.meta), v.meta)
  {
    assert At(DiskOf(vs), r) == Here(r);
    if d.Allows(r) {
      var outcome := Serve(r, now, poolCow, d, vs, blurred);
      assert At(DiskOf(vs), r) == Here(r);
      return Some(outcome);
    }
    o := None;
  }

  /** Any run. It keeps what its discipline promises, in every state a crash can leave: each request may end at any
      of its effects. It keeps every snapshot that it is not asked to take or drop, and what reports success has been
      done. And the trace of its states says which volumes' sizes are in doubt. */
  method Run(rs: seq<Request>, now: nat -> int, poolCow: bool, d: Discipline, vs: set<Volume>)
    returns (outcomes: seq<Option<Outcome>>, ghost trace: seq<Disk>)
    requires forall r | r in rs :: r.Objects() <= vs
    requires forall v, w | v in vs && w in vs :: v.env == w.env
    requires forall v | v in vs :: d.Holds(v, {})
    modifies vs, set v | v in vs :: v.env
    ensures |trace| == |rs| + 1 && trace[0] == old(DiskOf(vs)) && trace[|rs|] == DiskOf(vs)
    ensures Traces(rs, outcomes, trace, vs, d)
    ensures forall v | v in vs :: d.Holds(v, Blurred(rs, trace, |rs|))
    ensures forall v, k | v in vs && Untouched(rs, v, k) :: Lookup(v.snaps, k) == old(Lookup(v.snaps, k))
    ensures d.Roomy? ==>
              forall v, k | v in vs && k in old(v.snaps) && Untouched(rs, v, k) :: SizeKept(old(v.meta), v.meta)
  {
    outcomes, trace := [], [DiskOf(vs)];
    for i := 0 to |rs|
      invariant |trace| == i + 1 && trace[0] == old(DiskOf(vs)) && trace[i] == DiskOf(vs)
      invariant Traces(rs, outcomes, trace, vs, d)
      invariant forall v | v in vs :: d.Holds(v, Blurred(rs, trace, i))
      invariant forall v, k | v in vs && Untouched(rs, v, k) :: Lookup(v.snaps, k) == old(Lookup(v.snaps, k))
      invariant d.Roomy? ==>
                  forall v, k | v in vs && k in old(v.snaps) && Untouched(rs, v, k) :: SizeKept(old(v.meta), v.meta)
    {
      var o := ServeIfAllowed(rs[i], now(i), poolCow, d, vs, Blurred(rs, trace, i));
      TracesMore(rs, outcomes, o, trace, DiskOf(vs), vs, d);
      BlurredMore(rs, trace, DiskOf(vs));
      outcomes, trace := outcomes + [o], trace + [DiskOf(vs)];
    }
  }

  /** gc_all_volumes: the answer names the volumes whose time had come; these are gone, up to what their snapshots
      need, and no other was touched. */
  method CollectAll(vs: seq<Volume>, now: nat -> int, dryRun: bool) returns (o: Outcome, collected: seq<bool>)
    requires forall i, j | 0 <= i < j < |vs| :: vs[i] != vs[j]
    requires forall v, w | v in vs && w in vs :: v.env == w.env
    requires forall v | v in vs :: v.Ok()
    modifies vs, set v | v in vs :: v.env
    ensures forall v | v in vs :: v.Ok() && v.snaps == old(v.snaps) && v.loops == old(v.loops)
    ensures o.Done? ==> |collected| == |vs|
    ensures forall i | 0 <= i < |collected| <= |vs| ::
              && collected[i] == old(vs[i].Collectable(now(i)))
              && (collected[i] && !dryRun ==> vs[i].image.None? && vs[i].Tidy())
    ensures forall i: nat | i < |vs| && (dryRun || !old(vs[i].Collectable(now(i)))) ::
              vs[i].Unchanged(old(vs[i].metaDir), old(vs[i].meta), old(vs[i].dir), old(vs[i].image))
  {
    collected := [];
    for i := 0 to |vs|
      invariant |collected| == i
      invariant forall v | v in vs :: v.Ok() && v.snaps == old(v.snaps) && v.loops == old(v.loops)
      invariant forall j | 0 <= j < i ::
                  && collected[j] == old(vs[j].Collectable(now(j)))
                  && (collected[j] && !dryRun ==> vs[j].image.None? && vs[j].Tidy())
      invariant forall j: nat | j < |vs| && (j >= i || dryRun || !old(vs[j].Collectable(now(j)))) ::
                  vs[j].Unchanged(old(vs[j].metaDir), old(vs[j].meta), old(vs[j].dir), old(vs[j].image))
    {
      var c;
      o, c := vs[i].Gc(now(i), dryRun);
      if !o.Done? {
        return;
      }
      collected := collected + [c];
    }
    o := Done;
  }

  /** Snapshot, then anything else, then restore: the new image is the source's image as it was when the
      snapshot was taken, followed by zeros, unless a thin source's recorded size is smaller than that image was. */
  method SnapshotThenRestore(src: Volume, name: string, cow: bool, freeze: bool, rs: seq<Request>, now: nat -> int,
                             dst: Volume, p: Params, vs: set<Volume>)
    returns (o: Outcome)
    requires {src, dst} <= vs && src != dst
    requires forall r | r in rs :: r.Objects() <= vs && !r.Concerns(src, SnapKey(name, false))
    requires forall v, w | v in vs && w in vs :: v.env == w.env
    requires forall v | v in vs :: v.Ok()
    modifies vs, set v | v in vs :: v.env
    ensures o.Done? && dst.IsReady() ==>
              && old(src.image).Some? && src.HasImagePath()
              && dst.image ==
                  Some(Provisioned(src.meta.value.thin, old(src.image.value), Max(p.size, src.meta.value.size.value)))
  {
    var k := SnapKey(name, false);
    :- src.CreateSnapshot(k, cow, freeze);
    assert Lookup(src.snaps, k) == src.snaps[k];
    var outcomes; ghost var trace;
    outcomes, trace := Run(rs, now, cow, Any, vs);
    o := dst.CreateVolume(p, FromSnapshot(src, name), cow);
  }

  /** When no attempt that changes an image asks for less than is recorded, that is a round trip: the new image is the
      source's image as it was, followed by zeros up to the new size, whatever writes, expansions, crashes or
      deletion of the source came in between. */
  method SnapshotRoundTrip(src: Volume, name: string, cow: bool, freeze: bool, rs: seq<Request>, now: nat -> int,
                           dst: Volume, p: Params, vs: set<Volume>)
    returns (o: Outcome)
    requires {src, dst} <= vs && src != dst
    requires forall r | r in rs :: r.Objects() <= vs && !r.Concerns(src, SnapKey(name, false))
    requires forall v, w | v in vs && w in vs :: v.env == w.env
    requires forall v | v in vs :: Roomy.Holds(v, {})
    modifies vs, set v | v in vs :: v.env
    ensures o.Done? && dst.IsReady() ==>
              && old(src.image).Some? && dst.image.Some? && src.HasImagePath()
              && ZeroExtended(old(src.image.value), dst.image.value, Max(p.size, src.meta.value.size.value))
  {
    var k := SnapKey(name, false);
    ghost var m, i, s := src.meta, src.image, src.snaps;
    o := src.CreateSnapshot(k, cow, freeze);
    if !o.Done? {
      return;
    }
    SnapshotFits(m, i, s, src.snaps, k);
    assert Lookup(src.snaps, k) == src.snaps[k] && k in src.snaps && Untouched(rs, src, k);
    var outcomes; ghost var trace;
    outcomes, trace := Run(rs, now, cow, Roomy, vs);
    assert SizeKept(m, src.meta);
    o := RestoreWhole(src, name, dst, p, cow, i.value);
  }

  /** A snapshot that is no larger than its volume's recorded size is restored whole. */
  method RestoreWhole(src: Volume, name: string, dst: Volume, p: Params, cow: bool,
                      ghost data: Data)
    returns (o: Outcome)
    requires src != dst && src.Ok() && dst.Ok() && src.env == dst.env && src.HasImagePath()
               && |data| <= src.meta.value.size.value
    requires Lookup(src.snaps, SnapKey(name, false)).Ready()
               && Lookup(src.snaps, SnapKey(name, false)).img == Some(data)
    modifies dst.env, dst, src
    ensures src.meta == old(src.meta)
    ensures o.Done? && dst.IsReady() ==>
              dst.image.Some? && ZeroExtended(data, dst.image.value, Max(p.size, src.meta.value.size.value))
  {
    o := dst.CreateVolume(p, FromSnapshot(src, name), cow);
    if o.Done? && dst.IsReady() {
      RestoreKeepsData(data, src.meta.value.size.value, src.meta.value.thin, p, []);
    }
  }

  /** A clone has the bytes of its source, or of the temporary snapshot that an earlier attempt at the same clone left
      behind, provisioned as its source is: followed by zeros, if none of them is larger than the source records. No
      temporary snapshot stays. */
  method CloneCopies(src: Volume, dst: Volume, p: Params, poolCow: bool) returns (o: Outcome)
    requires src != dst && src.env == dst.env && src.Ok() && dst.Ok()
    modifies dst.env, dst, src
    ensures src.meta == old(src.meta) && src.image == old(src.image)
    ensures o.Done? ==> SnapKey(dst.id + "-clone-source", true) !in src.snaps
    ensures o.Done? && dst.IsReady() ==>
              && old(src.IsReady() && src.HasImagePath()) && dst.image.Some?
              && var data := old(Leftover(src.snaps, SnapKey(dst.id + "-clone-source", true), src.image));
                 var size := Max(p.size, src.meta.value.size.value);
                 && data.Some? && dst.image.value == Provisioned(src.meta.value.thin, data.value, size)
                 && (old(src.FitOk()) ==> ZeroExtended(data.value, dst.image.value, size))
  {
    ghost var k := dst.CloneKey();
    ghost var origin := src.CloneOrigin(k);
    o := dst.CreateVolume(p, FromVolume(src), poolCow);
    if o.Done? && dst.IsReady() {
      RestoreKeepsData(origin.data, origin.size, origin.thin, p, []);
    }
  }

  /** A volume that is created again from a snapshot of its own takes the size and the kind that are asked for now. */
  method RestoreInPlace(v: Volume, name: string, p: Params, poolCow: bool) returns (o: Outcome)
    requires v.Ok()
    modifies v.env, v
    ensures v.snaps == old(v.snaps)
    ensures o.Done? && v.IsReady() ==>
              var k := SnapKey(name, false);
              && k in v.snaps && v.snaps[k].img.Some? && !v.snaps[k].marked
              && v.image == Some(Provisioned(p.thin, v.snaps[k].img.value, p.size))
  {
    o := v.CreateVolume(p, FromSnapshot(v, name), poolCow);
  }

  /** A whole snapshot of this name, or else the image. */
  ghost function Leftover(snaps: Snaps, k: SnapKey, image: Option<Data>): Option<Data> {
    if k in snaps && snaps[k].img.Some? && !snaps[k].marked then snaps[k].img else image
  }

  /** A volume is expanded as it was created. A finished expansion keeps every byte of the image, unless the volume was
      created thin, with an image that is larger than the new size: never for a thick one. */
  method CreateThenExpand(v: Volume, p: Params, source: Source, poolCow: bool, newSize: nat, capacity: int,
                          physical: nat)
    returns (created: Outcome, expanded: Outcome, exhausted: bool, image: Option<Data>)
    requires v.Ok() && (!source.Blank? ==> source.volume.Ok() && source.volume.env == v.env)
    modifies v.env, v, source.Objects()
    ensures created.Done? && image.Some? && expanded.Done? ==>
              && v.image.Some?
              && (image.value <= v.image.value <==>
                  !p.thin || newSize <= p.size || exhausted || |image.value| <= newSize)
              && (!p.thin || |image.value| <= newSize ==>
                  forall j | |image.value| <= j < |v.image.value| :: v.image.value[j] == 0)
  {
    created := v.CreateVolume(p, source, poolCow);
    image := if v.IsReady() then v.image else None;
    expanded, exhausted := v.Expand(newSize, capacity, physical);
  }

  /** The same bytes, followed by zeros up to this size. */
  ghost predicate ZeroExtended(d: Data, image: Data, size: nat) {
    d <= image && |image| == size && forall j | |d| <= j < |image| :: image[j] == 0
  }
}
