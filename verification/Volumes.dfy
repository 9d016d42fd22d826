/** The volume and snapshot lifecycle of the node plugin, one file effect at a time.

    A `Volume` is everything the driver keeps for one volume id: metadata, image, snapshots, and how many
    loop devices the kernel holds on the image. Its methods follow `VolumeManager`, `SnapshotManager` and
    `ExpandRawFile`. `:- env.Act();` stands before every file effect: the method may end there.
 */
module Volumes {
  import opened Outcomes
  import opened Faults

  // ---------------------------------------------------------------- file contents

  function Zeros(n: nat): Data {
    seq(n, i => 0)
  }

  /** `ftruncate`: cut, or extend with zeros, to exactly n bytes. */
  function Truncated(d: Data, n: nat): Data {
    if n <= |d| then d[..n] else d + Zeros(n - |d|)
  }

  /** `fallocate` in mode 0: extend with zeros to at least n bytes, never cut. */
  function Allocated(d: Data, n: nat): Data {
    if n <= |d| then d else d + Zeros(n - |d|)
  }

  /** The image after provisioning: thin volumes are truncated to size, thick ones allocated. */
  function Provisioned(thin: bool, d: Data, n: nat): Data {
    if thin then Truncated(d, n) else Allocated(d, n)
  }

  /** What provisioning leaves of an image when it ends like this: an interrupted fallocate may stop anywhere. */
  function ProvisionedTo(thin: bool, d: Data, n: nat, f: Fate): Data {
    if f.Works? then Provisioned(thin, d, n)
    else if !thin && |d| < n && f.Torn(n - |d|) != [] then d + Zeros(|f.Torn(n - |d|)|)
    else d
  }

  function ImageOr(i: Option<Data>): Data {
    if i.Some? then i.value else []
  }

  function Max(a: nat, b: nat): nat {
    if a < b then b else a
  }

  // ---------------------------------------------------------------- what a volume is on disk

  datatype SnapKey = SnapKey(name: string, temporary: bool)

  /** The two files of a snapshot, name.img and name.img.creating. `source` is a history variable:
      the image the last copy into name.img was started from. */
  datatype Snap = Snap(img: Option<Data>, marked: bool, source: Option<Data>) {
    /** `list_snapshots` reports it, and as ready. */
    predicate Ready() {
      img.Some? && !marked
    }
  }

  const NO_SNAP := Snap(None, false, None)

  type Snaps = map<SnapKey, Snap>

  function Lookup(m: Snaps, k: SnapKey): Snap {
    if k in m then m[k] else NO_SNAP
  }

  /** The snapshot files with others for k; an entry stays only as long as one of the two files does. */
  function Store(m: Snaps, k: SnapKey, s: Snap): Snaps {
    if s.img.None? && !s.marked then m - {k} else m[k := s]
  }

  /** Only the files of snapshot k differ. */
  ghost predicate SameBut(m: Snaps, n: Snaps, k: SnapKey) {
    forall j | j != k :: (j in n <==> j in m) && (j in n ==> n[j] == m[j])
  }

  /** disk.meta. `size` and `img_file` are recorded by one and the same patch: `size` stands for both. */
  datatype Meta = Meta(ready: bool, size: Option<nat>, thin: bool, cow: Option<bool>, freeze: bool,
                       deletedAt: Option<int>, gcAt: Option<int>)

  const NO_META := Meta(false, None, false, None, false, None, None)

  /** What a request for a volume asks for. */
  datatype Params = Params(size: nat, thin: bool, cow: Option<bool>, freeze: bool) {
    /** The patch that records it. */
    function Recorded(m: Meta): Meta {
      m.(size := Some(size), thin := thin, cow := cow, freeze := freeze)
    }
  }

  /** The metadata says what was asked for, field by field, and keeps the deletion marks it had. */
  predicate Records(m: Meta, p: Params, before: Meta) {
    && m.size == Some(p.size) && m.thin == p.thin && m.cow == p.cow && m.freeze == p.freeze
    && m.deletedAt == before.deletedAt && m.gcAt == before.gcAt
  }

  predicate Backed(m: Option<Meta>, i: Option<Data>) {
    m.Some? && m.value.ready ==> m.value.size.Some? && i.Some? && m.value.size.value <= |i.value|
  }

  predicate Fits(m: Option<Meta>, i: Option<Data>, snaps: Snaps) {
    var known := m.Some? && m.value.size.Some?;
    && (known && i.Some? ==> |i.value| <= m.value.size.value)
    && (forall k | k in snaps :: snaps[k].Ready() ==> known && |snaps[k].img.value| <= m.value.size.value)
  }

  /** A snapshot k that is ready was ready before, or is a copy of the image. */
  predicate FreshOrSame(m: Snaps, n: Snaps, k: SnapKey, meta: Option<Meta>, image: Option<Data>) {
    k in n && n[k].Ready() ==>
      || (k in m && n[k] == m[k])
      || (meta.Some? && meta.value.size.Some? && n[k].img == image)
  }

  class Volume {
    const id: string
    const env: Env
    var metaDir: bool
    var meta: Option<Meta>
    var dir: bool
    var snapDir: bool
    var tempDir: bool
    var image: Option<Data>
    /** An entry for every snapshot, temporary snapshot or marker file there is. */
    var snaps: Snaps
    /** The number of loop devices on the image. */
    var loops: nat

    constructor (id: string, env: Env)
      ensures this.id == id && this.env == env && Ok() && ReadyIsBacked() && LoopOk() && FitOk()
      ensures meta.None? && !dir && image.None? && snaps == map[]
    {
      this.id, this.env := id, env;
      metaDir, meta, dir, snapDir, tempDir := false, None, false, false, false;
      image, snaps, loops := None, map[], 0;
    }

    /** The same files, as the next process of the driver finds them. */
    constructor Resume(v: Volume, env: Env)
      ensures id == v.id && this.env == env && metaDir == v.metaDir && meta == v.meta && dir == v.dir
      ensures snapDir == v.snapDir && tempDir == v.tempDir && image == v.image && snaps == v.snaps && loops == v.loops
    {
      this.id, this.env := v.id, env;
      metaDir, meta, dir, snapDir, tempDir := v.metaDir, v.meta, v.dir, v.snapDir, v.tempDir;
      image, snaps, loops := v.image, v.snaps, v.loops;
    }

    /** `metadata_or`: the recorded metadata, or defaults. */
    function MetaOr(): Meta
      reads this
    {
      if meta.Some? then meta.value else NO_META
    }

    predicate IsReady()
      reads this
    {
      meta.Some? && meta.value.ready
    }

    predicate IsDeleted()
      reads this
    {
      meta.Some? && meta.value.deletedAt.Some?
    }

    /** img_file() and img_size() find what they read. */
    predicate HasImagePath()
      reads this
    {
      meta.Some? && meta.value.size.Some?
    }

    // -------------------------------------------------------------- what holds in every state

    /** Paths exist only inside their parent directory. */
    predicate Nested()
      reads this
    {
      && (meta.Some? ==> metaDir && dir)
      && (image.Some? || snapDir ==> dir)
      && (tempDir ==> snapDir)
      && (forall k | k in snaps :: snapDir && (k.temporary ==> tempDir))
    }

    /** `ready` promises an image of at least the recorded size. */
    predicate ReadyIsBacked()
      reads this
    {
      Backed(meta, image)
    }

    /** A ready snapshot is a whole copy of the image as it was when the copy was made. */
    predicate SnapshotsWhole()
      reads this
    {
      forall k | k in snaps ::
          (snaps[k].img.Some? || snaps[k].marked) && (snaps[k].Ready() ==> snaps[k].img == snaps[k].source)
    }

    /** As long as there is a snapshot entry, there is metadata to delete it by. */
    predicate EntriesHaveMeta()
      reads this
    {
      forall k | k in snaps :: meta.Some?
    }

    /** What holds after every effect of every operation, whatever was called when. */
    predicate Ok()
      reads this
    {
      Nested() && SnapshotsWhole() && EntriesHaveMeta()
    }

    /** An attached image exists and is known; a deleted volume is neither attached nor ready. */
    predicate LoopOk()
      reads this
    {
      && (loops > 0 ==> image.Some? && HasImagePath())
      && (IsDeleted() ==> loops == 0 && !IsReady() && meta.value.gcAt.Some?)
    }

    /** Neither the image nor a ready snapshot is larger than the recorded size. */
    predicate FitOk()
      reads this
    {
      Fits(meta, image, snaps)
    }

    // -------------------------------------------------------------- snapshots

    /** create_snapshot's try block: freeze, copy the image, remove the marker, and look at the result.
        An interrupted copy leaves anything in the snapshot's file. */
    method CopyOut(k: SnapKey, freezing: bool) returns (o: Outcome)
      requires Ok() && k in snaps && snaps[k].marked
      modifies env, this`snaps
      ensures Ok()
      ensures SameBut(old(snaps), snaps, k) && k in snaps
      ensures !o.Done? && !snaps[k].marked ==> image.Some? && snaps[k] == Snap(image, false, image)
      ensures o.Done? ==> image.Some? && snaps[k] == Snap(image, false, image)
      ensures env.Healthy() ==> (o.Done? <==> image.Some?)
    {
      if freezing {
        :- env.Act();
      }
      if image.None? {
        return Raised;
      }
      var f := env.Draw();
      snaps := snaps[k := Snap(if f.Works? then image else Some(f.Torn(|image.value|)), true, image)];
      if !f.Works? {
        return f.Outcome();
      }
      :- env.Act();
      snaps := snaps[k := snaps[k].(marked := false)];
      o := env.Act();
    }

    /** create_snapshot's prologue: mark the snapshot as being created, then remove an older copy. */
    method MarkSnapshot(k: SnapKey) returns (o: Outcome)
      requires Ok() && HasImagePath()
      modifies env, this`dir, this`snapDir, this`tempDir, this`snaps
      ensures Ok() && dir == old(dir)
      ensures SameBut(old(snaps), snaps, k)
      ensures o.Done? ==> k in snaps && snaps[k].marked
      ensures k in snaps && snaps[k].Ready() ==> k in old(snaps) && snaps[k] == old(snaps[k])
      ensures env.Healthy() ==> o.Done?
    {
      o := Done;
      :- env.Act();
      dir, snapDir, tempDir := true, true, tempDir || k.temporary;
      :- env.Act();
      snaps := Store(snaps, k, Lookup(snaps, k).(marked := true));
      :- env.Act();
      snaps := Store(snaps, k, Lookup(snaps, k).(img := None));
      o := Done;
    }

    /** create_snapshot: mark the snapshot as being created, remove an older copy, copy, unmark. */
    method CreateSnapshot(k: SnapKey, cow: bool, freeze: bool) returns (o: Outcome)
      requires Ok()
      modifies env, this`dir, this`snapDir, this`tempDir, this`snaps
      ensures Ok() && dir == old(dir)
      ensures SameBut(old(snaps), snaps, k)
      ensures FreshOrSame(old(snaps), snaps, k, meta, image)
      ensures o.Done? ==> k in snaps && snaps[k].Ready() && snaps[k].img == image
      ensures env.Healthy() ==> (o.Done? <==> HasImagePath() && image.Some? && (loops > 0 ==> freeze || cow))
    {
      if !metaDir || !HasImagePath() {
        return Raised;
      }
      var inUse := loops > 0;
      :- MarkSnapshot(k);
      if inUse && !(freeze || cow) {
        return Raised;
      }
      o := CopyOut(k, freeze && inUse);
      if o.Raised? {
        :- env.Act();
        snaps := Store(snaps, k, snaps[k].(img := None));
        o := Raised;
      }
      if !o.Crashed? && freeze && inUse {
        :- env.Act();
      }
    }

    /** delete_snapshot: the image first, the marker last. */
    method DeleteSnapshot(k: SnapKey) returns (o: Outcome)
      requires Ok()
      modifies env, this`snaps
      ensures Ok()
      ensures SameBut(old(snaps), snaps, k)
      ensures k in snaps ==> k in old(snaps) && (snaps[k] == old(snaps[k]) || snaps[k].img.None?)
      ensures o.Done? ==> k !in snaps
      ensures env.Healthy() ==> (o.Done? <==> meta.Some?)
    {
      if !metaDir || meta.None? {
        return Raised;
      }
      :- env.Act();
      snaps := Store(snaps, k, Lookup(snaps, k).(img := None));
      :- env.Act();
      snaps := snaps - {k};
      o := Done;
    }

    // -------------------------------------------------------------- deletion

    /** destroy_volume: the image goes; directories and metadata only once no snapshot entry is left. */
    method Destroy() returns (o: Outcome)
      requires Ok() && meta.Some?
      modifies env, this
      ensures snaps == old(snaps) && loops == old(loops)
      ensures image == None || image == old(image)
      ensures meta == old(meta) || (meta.None? && snaps == map[])
      ensures Ok()
      ensures o.Done? ==> image.None? && (tempDir ==> exists k :: k in snaps && k.temporary)
      ensures o.Done? ==> (meta.Some? <==> snaps != map[]) && (metaDir <==> snaps != map[]) && (dir <==> snaps != map[])
      ensures env.Healthy() ==> (o.Done? <==> old(HasImagePath()))
    {
      var temps := set k | k in snaps && k.temporary;
      assert forall k | k in snaps && k.temporary :: k in temps;
      if !HasImagePath() {
        return Raised;
      }
      :- env.Act();
      image := None;
      if temps == {} {
        :- env.Act();
        tempDir := false;
        if snaps == map[] {
          :- env.Act();
          snapDir := false;
        }
      }
      if snaps == map[] {
        :- env.Act();
        meta := None;
        :- env.Act();
        metaDir := false;
        :- env.Act();
        dir := false;
      }
      o := Done;
    }

    /** gc_if_needed has something to destroy. */
    predicate Collectable(now: int)
      reads this
    {
      IsDeleted() && meta.value.gcAt.Some? && meta.value.gcAt.value <= now
    }

    /** gc_if_needed. */
    method Gc(now: int, dryRun: bool) returns (o: Outcome, collected: bool)
      requires Ok()
      modifies env, this
      ensures snaps == old(snaps) && loops == old(loops)
      ensures image == None || image == old(image)
      ensures meta == old(meta) || (meta.None? && snaps == map[])
      ensures Ok()
      ensures old(!Collectable(now)) || dryRun ==> Unchanged(old(metaDir), old(meta), old(dir), old(image))
      ensures o.Done? ==>
                (collected <==>
                old(meta.Some? && meta.value.deletedAt.Some? && meta.value.gcAt.Some? && meta.value.gcAt.value <= now))
      ensures o.Done? && collected && !dryRun ==> image.None? && Tidy()
      ensures old(LoopOk() && ReadyIsBacked()) ==> LoopOk() && ReadyIsBacked()
      ensures old(FitOk()) ==> FitOk()
      ensures env.Healthy() ==> (o.Done? <==> old(metaDir && (Collectable(now) && !dryRun ==> HasImagePath())))
    {
      collected := false;
      if !metaDir {
        o := Raised;
        return;
      }
      var m := MetaOr();
      if m.deletedAt.None? || m.gcAt.None? || m.gcAt.value > now {
        o := Done;
        return;
      }
      if !dryRun {
        o := Destroy();
        if !o.Done? {
          return;
        }
      }
      o, collected := Done, true;
    }

    ghost predicate Unchanged(metaDir': bool, meta': Option<Meta>, dir': bool, image': Option<Data>)
      reads this
    {
      metaDir == metaDir' && meta == meta' && dir == dir' && image == image'
    }

    /** Metadata and directories are there exactly when a snapshot entry is. */
    ghost predicate Tidy()
      reads this
    {
      (meta.Some? <==> snaps != map[]) && (metaDir <==> snaps != map[]) && (dir <==> snaps != map[])
    }

    /** delete_volume. */
    method DeleteVolume(now: int) returns (o: Outcome)
      requires Ok()
      modifies env, this
      ensures Ok()
      ensures snaps == old(snaps) && loops == old(loops)
      ensures image == None || image == old(image)
      ensures old(ReadyIsBacked()) ==> ReadyIsBacked()
      ensures old(LoopOk()) ==> LoopOk()
      ensures old(FitOk()) ==> FitOk()
      ensures SizeKept(old(meta), meta)
      ensures o.Done? && old(dir) ==> image.None? && Tidy() && loops == 0
      ensures old(!HasImagePath() || loops > 0) ==> Unchanged(old(metaDir), old(meta), old(dir), old(image))
      ensures o.Done? && old(dir) && meta.Some? ==>
                meta.value == old(meta.value).(deletedAt := Some(now), gcAt := Some(now), ready := false)
      ensures env.Healthy() ==> (o.Done? <==> old(!dir || (HasImagePath() && loops == 0)))
    {
      if !dir {
        return Done;
      }
      if !HasImagePath() || loops > 0 {
        return Raised;
      }
      :- env.Act();
      meta := Some(meta.value.(deletedAt := Some(now), gcAt := Some(now), ready := false));
      var collected;
      o, collected := Gc(now, false);
    }

    // -------------------------------------------------------------- provisioning

    /** truncate() or fallocate() of the image; both open it for appending, so it exists afterwards.
        An interrupted fallocate leaves the image somewhere between its old and its new size. */
    method Provision(thin: bool, n: nat) returns (o: Outcome)
      requires dir
      modifies env, this`image
      ensures old(image.Some?) ==> image.Some?
      ensures image != old(image) ==> image.Some?
      ensures o.Done? ==> image == Some(Provisioned(thin, ImageOr(old(image)), n))
      ensures !o.Done? && image.Some? ==>
                ImageOr(old(image)) <= image.value && |image.value| <= Max(|ImageOr(old(image))|, n)
      ensures env.Healthy() ==> (o.Done? <==> thin || n > 0)
      ensures old(image.Some?) && (thin || n > 0) ==>
                var f := env.fate(old(env.tick));
                o == f.Outcome() && image == Some(ProvisionedTo(thin, old(image.value), n, f))
                    && env.tick == old(env.tick) + 1
    {
      if image.None? {
        :- env.Act();
        image := Some([]);
      }
      if !thin && n == 0 {
        return Raised;
      }
      var f := env.Draw();
      image := Some(ProvisionedTo(thin, image.value, n, f));
      o := f.Outcome();
    }

    /** The space an expansion has to find: only what it adds to what the image already holds. */
    function ExpansionNeeds(newSize: nat, physical: nat): int
      requires HasImagePath()
      reads this
    {
      if meta.value.thin then newSize - meta.value.size.value else newSize - physical
    }

    /** The expansion is neither superfluous nor refused. */
    predicate Expands(newSize: nat, capacity: int, physical: nat)
      reads this
    {
      HasImagePath() && image.Some? && meta.value.size.value < newSize && ExpansionNeeds(newSize, physical) <= capacity
    }

    /** Neither the image nor a ready snapshot is larger than this. */
    predicate NothingLarger(size: nat)
      reads this
    {
      Fits(Some(NO_META.(size := Some(size))), image, snaps)
    }

    /** The two effects of ExpandRawFile: the image grows, then the new size is recorded. */
    method GrowImage(newSize: nat) returns (o: Outcome)
      requires Ok() && HasImagePath() && meta.value.size.value < newSize && (meta.value.thin || image.Some?)
      modifies env, this`meta, this`image
      ensures Ok() && meta.Some?
      ensures Grown(old(meta.value), old(image), meta.value, image, newSize)
      ensures o.Done? ==> meta != old(meta)
      ensures env.Healthy() ==> meta != old(meta)
      ensures old(image.Some?) ==>
                var f, g := env.fate(old(env.tick)), env.fate(old(env.tick) + 1);
                && image == Some(ProvisionedTo(old(meta.value.thin), old(image.value), newSize, f))
                && (meta != old(meta) <==> f.Works? && g.Works?)
                && (f.Works? && !g.Works? ==> o == g.Outcome())
    {
      var thin := meta.value.thin;
      :- Provision(thin, newSize);
      var f := env.Draw();
      if !f.Works? {
        o := f.Outcome();
        return;
      }
      meta := Some(meta.value.(size := Some(newSize)));
      o := env.Act();
    }

    /** ExpandRawFile; `capacity` is what get_capacity answers, `physical` the blocks the image holds. */
    method Expand(newSize: nat, capacity: int, physical: nat) returns (o: Outcome, exhausted: bool)
      requires Ok()
      modifies env, this`meta, this`image
      ensures Ok()
      ensures old(ReadyIsBacked()) ==> ReadyIsBacked()
      ensures old(image.Some?) ==> image.Some?
      ensures meta == old(meta) || (old(HasImagePath()) && meta == Some(old(meta.value).(size := Some(newSize))))
      ensures SizeKept(old(meta), meta)
      ensures old(LoopOk()) ==> LoopOk()
      ensures o.Done? || env.Healthy() ==> meta != old(meta) || image == old(image)
      ensures old(FitOk()) && (meta != old(meta) || image == old(image)) ==> FitOk()
      ensures old(FitOk() && ReadyIsBacked() && IsReady()) ==> (FitOk() <==> meta != old(meta) || image == old(image))
      ensures old(NothingLarger(newSize)) && meta != old(meta) ==> FitOk()
      ensures old(Expands(newSize, capacity, physical)) ==>
                var f, g := env.fate(old(env.tick)), env.fate(old(env.tick) + 1);
                && image == Some(ProvisionedTo(old(meta.value.thin), old(image.value), newSize, f))
                && (meta != old(meta) <==> f.Works? && g.Works?)
                && (f.Works? && !g.Works? ==> o == g.Outcome())
      ensures old(image.Some? && !Expands(newSize, capacity, physical)) ==> meta == old(meta) && image == old(image)
      ensures old(FitOk()) && old(image.Some?) ==> old(image.value) <= image.value
      ensures meta != old(meta) ==> image == Some(Provisioned(old(meta.value.thin), ImageOr(old(image)), newSize))
      ensures o.Done? ==> old(HasImagePath())
      ensures o.Done? ==>
                (exhausted <==>
                && old(meta.value.size.value) < newSize
                && capacity < newSize - (if old(meta.value.thin) then old(meta.value.size.value) else physical))
      ensures o.Done? && (exhausted || newSize <= old(meta.value.size.value)) ==>
                meta == old(meta) && image == old(image)
      ensures o.Done? && !exhausted && old(meta.value.size.value) < newSize ==> meta.value.size == Some(newSize)
    {
      exhausted := false;
      if !metaDir || !HasImagePath() {
        o := Raised;
        return;
      }
      var increase := newSize - meta.value.size.value;
      if increase <= 0 {
        o := env.Act();
        return;
      }
      if !meta.value.thin && image.None? {
        o := Raised;
        return;
      }
      if capacity < ExpansionNeeds(newSize, physical) {
        o := env.Act();
        exhausted := true;
        return;
      }
      ghost var m, i := meta.value, image;
      o := GrowImage(newSize);
      GrownFits(m, i, meta.value, image, snaps, newSize);
    }

    // -------------------------------------------------------------- creation

    /** The temporary snapshot a clone of a volume goes through. */
    function CloneKey(): SnapKey {
      SnapKey(id + "-clone-source", true)
    }

    /** What create_volume finds to restore from once it has recorded the size: the source's snapshot must be
        listed and ready, and the source's size known. (A volume that is its own source reads back the patch.) */
    function OriginOf(source: Source, p: Params): Origin
      reads this, source.Objects()
    {
      if source.Blank? then
        Nothing
      else
        var k := if source.FromSnapshot? then SnapKey(source.name, false) else CloneKey();
        var m := source.volume.meta;
        var s := Lookup(source.volume.snaps, k);
        if m.None? || !s.Ready() then Missing
        else if source.volume == this then Found(s.img.value, p.size, p.thin)
        else if m.value.size.None? then Missing
        else Found(s.img.value, m.value.size.value, m.value.thin)
    }

    /** create_volume under its lock, first half: directories, the patch that records the size, an empty image. */
    method RecordLayout(p: Params) returns (o: Outcome)
      requires Ok() && meta.Some? && !IsReady()
      modifies env, this`meta, this`image, this`snapDir, this`tempDir
      ensures Ok() && meta.Some? && !IsReady()
      ensures image == old(image) || (old(image).None? && image == Some([]))
      ensures meta == old(meta) || meta.value == p.Recorded(old(meta.value))
      ensures image != old(image) || o.Done? ==> Records(meta.value, p, old(meta.value))
      ensures o.Done? ==> image.Some? && snapDir && tempDir
      ensures env.Healthy() ==> o.Done?
    {
      o := Done;
      :- env.Act();
      snapDir := true;
      :- env.Act();
      tempDir := true;
      :- env.Act();
      meta := Some(p.Recorded(meta.value));
      :- env.Act();
      if image.None? {
        image := Some([]);
      }
      o := Done;
    }

    /** create_volume under its lock, second half: copy the source's snapshot, if any, then provision. */
    method Fill(p: Params, origin: Origin) returns (o: Outcome)
      requires dir && image.Some?
      modifies env, this`image
      ensures image.Some?
      ensures o.Done? ==> !origin.Missing? && image.value == Content(origin, p, old(image.value))
      ensures |image.value| <= Max(|old(image.value)|, LargestFill(origin, p.size))
      ensures env.Healthy() && !origin.Missing? && p.size > 0 ==> o.Done?
    {
      if origin.Missing? {
        return Raised;
      }
      var n, t := p.size, p.thin;
      if origin.Found? {
        n, t := Max(p.size, origin.size), origin.thin;
        var f := env.Draw();
        image := Some(if f.Works? then origin.data else f.Torn(|origin.data|));
        if !f.Works? {
          return f.Outcome();
        }
      }
      o := Provision(t, n);
    }

    /** create_volume finds an image that is large enough already, and leaves it alone. */
    predicate LargeEnough(size: nat)
      reads this
    {
      image.Some? && size <= |image.value|
    }

    /** The part of create_volume that holds the volume's lock. */
    method Populate(p: Params, origin: Origin) returns (o: Outcome)
      requires Ok() && meta.Some? && !IsReady()
      modifies env, this`meta, this`image, this`snapDir, this`tempDir
      ensures Ok()
      ensures meta.Some? && Attempted(old(meta.value), old(image), meta.value, image, p, origin)
      ensures ReadyIsBacked()
      ensures o.Done? <==> meta.value.ready || old(LargeEnough(p.size))
      ensures env.Healthy() && !origin.Missing? && p.size > 0 ==> o.Done?
    {
      if LargeEnough(p.size) {
        return Done;
      }
      :- RecordLayout(p);
      :- Fill(p, origin);
      ContentIsBacked(origin, p, ImageOr(old(image)));
      :- env.Act();
      meta := Some(meta.value.(ready := true));
      o := Done;
    }

    /** The content a clone of this volume starts from: a temporary snapshot left by an earlier attempt, or the
        image. */
    function CloneData(k: SnapKey): Option<Data>
      reads this
    {
      if Lookup(snaps, k).Ready() then snaps[k].img else image
    }

    /** Nothing stands in the way of a clone. */
    predicate CanClone()
      reads this
    {
      IsReady() && HasImagePath() && image.Some? && loops == 0
    }

    /** create_volume's preparation of a volume to clone: unless there is one already, a temporary snapshot of it. */
    method SnapshotForClone(k: SnapKey, poolCow: bool) returns (o: Outcome)
      requires Ok()
      modifies env, this`dir, this`snapDir, this`tempDir, this`snaps
      ensures Ok() && dir == old(dir)
      ensures SameBut(old(snaps), snaps, k) && FreshOrSame(old(snaps), snaps, k, meta, image)
      ensures o.Done? ==> IsReady() && k in snaps && snaps[k].Ready() && snaps[k].img == old(CloneData(k))
      ensures env.Healthy() && CanClone() ==> o.Done?
      ensures env.Healthy() && old(IsReady() && HasImagePath() && image.Some? && !Lookup(snaps, k).Ready()) ==>
                (o.Done? <==>
                loops == 0 || meta.value.freeze || meta.value.cow == Some(true) || (meta.value.cow.None? && poolCow))
    {
      if !IsReady() {
        return Raised;
      }
      if !Lookup(snaps, k).Ready() {
        :- CreateSnapshot(k, if meta.value.cow.Some? then meta.value.cow.value else poolCow, meta.value.freeze);
      }
      o := Done;
    }

    /** create_volume's prologue: from here on the volume is not ready. */
    method Unready() returns (o: Outcome)
      requires Ok()
      modifies env, this`dir, this`metaDir, this`meta
      ensures Ok()
      ensures meta == old(meta) || meta == old(Some(MetaOr().(ready := false)))
      ensures old(ReadyIsBacked()) ==> ReadyIsBacked()
      ensures old(LoopOk()) ==> LoopOk()
      ensures o.Done? ==> meta.Some? && !IsReady() && meta == old(Some(MetaOr().(ready := false)))
      ensures env.Healthy() ==> o.Done?
    {
      o := Done;
      :- env.Act();
      dir := true;
      :- env.Act();
      metaDir := true;
      :- env.Act();
      meta := Some(MetaOr().(ready := false));
      o := Done;
    }

    /** create_volume's try block for a clone of another volume. */
    method TryClone(p: Params, src: Volume, poolCow: bool) returns (o: Outcome)
      requires Ok() && meta.Some? && !IsReady() && src.Ok() && src.env == env
      modifies env, this`meta, this`image, this`snapDir, this`tempDir, src`dir, src`snapDir, src`tempDir, src`snaps
      ensures Ok() && src.Ok() && dir == old(dir) && src.dir == old(src.dir)
      ensures SameBut(old(src.snaps), src.snaps, CloneKey())
      ensures FreshOrSame(old(src.snaps), src.snaps, CloneKey(), old(src.meta), old(src.image))
      ensures meta.Some?
                && Attempted(old(meta.value), old(image), meta.value, image, p, old(src.CloneOrigin(CloneKey())))
      ensures ReadyIsBacked()
      ensures !old(src.IsReady()) ==> !o.Done? && meta == old(meta) && image == old(image)
      ensures o.Done? ==> meta.value.ready || old(LargeEnough(p.size))
      ensures env.Healthy() && p.size > 0 && old(src != this && src.CanClone()) ==> o.Done?
    {
      o := Done;
      :- src.SnapshotForClone(CloneKey(), poolCow);
      o := Populate(p, OriginOf(FromVolume(src), p));
    }

    /** create_volume for a clone of another volume: the temporary snapshot goes in any case. */
    method CloneVolume(p: Params, src: Volume, poolCow: bool) returns (o: Outcome)
      requires Ok() && meta.Some? && !IsReady() && src.Ok() && src.env == env
      modifies env, this`meta, this`image, this`snapDir, this`tempDir, src`dir, src`snapDir, src`tempDir, src`snaps
      ensures Ok() && src.Ok() && dir == old(dir) && src.dir == old(src.dir)
      ensures SameBut(old(src.snaps), src.snaps, CloneKey())
      ensures FreshOrSame(old(src.snaps), src.snaps, CloneKey(), old(src.meta), old(src.image))
      ensures meta.Some?
                && Attempted(old(meta.value), old(image), meta.value, image, p, old(src.CloneOrigin(CloneKey())))
      ensures ReadyIsBacked()
      ensures !old(src.IsReady()) ==> !o.Done? && meta == old(meta) && image == old(image)
      ensures o.Done? ==> (meta.value.ready || old(LargeEnough(p.size))) && CloneKey() !in src.snaps
      ensures env.Healthy() && p.size > 0 && old(src != this && src.CanClone()) ==> o.Done?
    {
      o := TryClone(p, src, poolCow);
      if !o.Crashed? {
        var d := src.DeleteSnapshot(CloneKey());
        o := if d.Done? then o else d;
      }
    }

    /** What a clone of this volume is made from. */
    function CloneOrigin(k: SnapKey): Origin
      reads this
    {
      if IsReady() && HasImagePath() && CloneData(k).Some? then
        Found(CloneData(k).value, meta.value.size.value, meta.value.thin)
      else
        Missing
    }

    /** What a new volume with this source is made from. */
    function OriginAsked(source: Source, p: Params): Origin
      reads this, source.Objects()
    {
      if !source.FromVolume? then OriginOf(source, p)
      else if source.volume == this then Missing
      else source.volume.CloneOrigin(CloneKey())
    }

    /** No attempt that would change the image asks for less than is recorded, and no clone for less than its source
        records. */
    predicate Roomy(size: nat, source: Source)
      reads this, source.Objects()
    {
      && (HasImagePath() ==> meta.value.size.value <= size || LargeEnough(size))
      && (!source.Blank? ==> source.volume != this)
      && (!source.Blank? && source.volume.HasImagePath() ==> source.volume.meta.value.size.value <= size)
    }

    /** create_volume after its prologue. */
    method Attempt(p: Params, source: Source, poolCow: bool)
      returns (o: Outcome)
      requires Ok() && meta.Some? && !IsReady()
      requires !source.Blank? ==> source.volume.Ok() && source.volume.env == env
      modifies env, this`meta, this`image, this`snapDir, this`tempDir,
               source.Objects()`dir, source.Objects()`snapDir, source.Objects()`tempDir, source.Objects()`snaps
      ensures Ok() && (!source.Blank? ==> source.volume.Ok())
      ensures !source.FromVolume? ==>
                snaps == old(snaps) && (source.FromSnapshot? ==> source.volume.snaps == old(source.volume.snaps))
      ensures source.FromVolume? && source.volume != this ==> snaps == old(snaps)
      ensures source.FromVolume? ==>
                && SameBut(old(source.volume.snaps), source.volume.snaps, CloneKey())
                && FreshOrSame(old(source.volume.snaps), source.volume.snaps, CloneKey(), old(source.volume.meta),
                    old(source.volume.image))
                && (o.Done? ==> CloneKey() !in source.volume.snaps)
      ensures meta.Some? && Attempted(old(meta.value), old(image), meta.value, image, p, old(OriginAsked(source, p)))
      ensures meta.value.ready ==> Records(meta.value, p, old(meta.value))
      ensures ReadyIsBacked()
      ensures old(LoopOk() && !IsDeleted()) ==> LoopOk()
      ensures o.Done? ==> meta.value.ready || old(LargeEnough(p.size))
      ensures source.FromVolume? && !old(source.volume.IsReady()) ==>
                !o.Done? && meta == old(meta) && image == old(image)
      ensures env.Healthy() && p.size > 0 && source.FromVolume? ==>
                (old(source.volume != this && source.volume.CanClone()) ==> o.Done?)
      ensures env.Healthy() && p.size > 0 && !source.FromVolume? && !old(OriginAsked(source, p)).Missing? ==> o.Done?
    {
      if source.FromVolume? {
        o := CloneVolume(p, source.volume, poolCow);
      } else {
        o := Populate(p, OriginOf(source, p));
      }
    }

    /** create_volume, a first attempt or another one over what earlier attempts left. */
    method CreateVolume(p: Params, source: Source, poolCow: bool)
      returns (o: Outcome)
      requires Ok()
      requires !source.Blank? ==> source.volume.Ok() && source.volume.env == env
      modifies env, this`meta, this`image, this`metaDir, this`dir, this`snapDir, this`tempDir,
               source.Objects()`dir, source.Objects()`snapDir, source.Objects()`tempDir, source.Objects()`snaps
      ensures Ok()
      ensures !source.Blank? ==> source.volume.Ok() && source.volume.loops == old(source.volume.loops)
      ensures !source.Blank? && source.volume != this ==>
                source.volume.meta == old(source.volume.meta) && source.volume.image == old(source.volume.image)
      ensures !source.FromVolume? ==>
                snaps == old(snaps) && (source.FromSnapshot? ==> source.volume.snaps == old(source.volume.snaps))
      ensures source.FromVolume? && source.volume != this ==> snaps == old(snaps)
      ensures source.FromVolume? ==> SameBut(old(source.volume.snaps), source.volume.snaps, CloneKey())
      ensures source.FromVolume? ==>
                FreshOrSame(old(source.volume.snaps), source.volume.snaps, CloneKey(), old(source.volume.meta),
                    old(source.volume.image))
      ensures source.FromVolume? && o.Done? ==> CloneKey() !in source.volume.snaps
      ensures || (meta == old(meta) && image == old(image) && !o.Done?)
              || (meta.Some? && Attempted(old(MetaOr().(ready := false)), old(image), meta.value, image, p,
                                          old(OriginAsked(source, p))))
      ensures o.Done? ==> meta.Some? && (meta.value.ready || old(LargeEnough(p.size)))
      ensures IsReady() && (o.Done? || meta != old(meta) || image != old(image)) ==>
                Records(meta.value, p, old(MetaOr().(ready := false)))
      ensures source.FromVolume? && !old(source.volume.IsReady()) ==>
                !o.Done? && (meta == old(meta) || meta == old(Some(MetaOr().(ready := false)))) && image == old(image)
      ensures old(ReadyIsBacked()) ==> ReadyIsBacked()
      ensures old(LoopOk() && !IsDeleted()) ==> LoopOk()
      ensures env.Healthy() ==> meta.Some?
      ensures env.Healthy() && p.size > 0 && source.FromVolume? ==>
                (old(source.volume != this && source.volume.CanClone()) ==> o.Done?)
      ensures env.Healthy() && p.size > 0 && !source.FromVolume? && !old(OriginAsked(source, p)).Missing? ==> o.Done?
    {
      o := Done;
      :- Unready();
      assert meta.value == old(MetaOr().(ready := false));
      assert OriginAsked(source, p) == old(OriginAsked(source, p));
      o := Attempt(p, source, poolCow);
    }

    // -------------------------------------------------------------- the node plugin and the workload

    /** NodeStageVolume, as far as the image is concerned: a ready volume gets a loop device unless it has one. */
    method Stage() returns (o: Outcome)
      modifies env, this`loops
      ensures loops == old(loops) || (IsReady() && old(loops) == 0 && loops == 1)
      ensures o.Done? ==> IsReady() && loops > 0
      ensures env.Healthy() && IsReady() && HasImagePath() ==> o.Done?
    {
      if !IsReady() || !HasImagePath() {
        return Raised;
      }
      :- env.Act();
      loops := if loops == 0 then 1 else loops;
      o := Done;
    }

    /** NodeUnstageVolume, as far as the image is concerned. A volume without metadata takes the teardown path
        that does not look for loop devices. */
    method Unstage() returns (o: Outcome)
      modifies env, this`loops
      ensures loops == old(loops) || loops == 0
      ensures o.Done? && meta.Some? ==> loops == 0
      ensures env.Healthy() && HasImagePath() ==> o.Done?
    {
      if meta.None? {
        return Done;
      }
      if !HasImagePath() {
        return Raised;
      }
      :- env.Act();
      loops := 0;
      o := Done;
    }

    /** The workload writes through the loop device; that never changes the image's length. */
    method Write(d: Data)
      modifies this`image
      ensures image == old(image) || (old(image.Some?) && image == Some(d) && |d| == |old(image.value)|)
      ensures loops > 0 && old(image.Some?) && |d| == |old(image.value)| ==> image == Some(d)
    {
      if loops > 0 && image.Some? && |d| == |image.value| {
        image := Some(d);
      }
    }
  }

  /** What an attempt to create a volume, at whatever point it ended, did to the metadata and the image:
      the deletion marks stay, the image never disappears and is touched only after the size was recorded,
      and `ready` is set only if the image has the content it was asked for. */
  predicate Attempted(m: Meta, i: Option<Data>, m': Meta, i': Option<Data>, p: Params, origin: Origin) {
    var leave := i.Some? && p.size <= |i.value|;
    && (m' == m || m'.(ready := m.ready) == p.Recorded(m))
    && (i.Some? ==> i'.Some?)
    && (i' != i ==> m'.size == Some(p.size) && |i'.value| <= Max(|ImageOr(i)|, LargestFill(origin, p.size)))
    && (leave ==> m' == m && i' == i)
    && (m'.ready ==>
          && !leave && !origin.Missing? && m' == p.Recorded(m).(ready := true)
          && i' == Some(Content(origin, p, ImageOr(i))))
  }

  /** What an expansion, at whatever point it ended, did to the metadata and the image: the size is recorded only
      with the image that has it, and an image that was grown without that holds the new content or what there was
      of it. */
  predicate Grown(m: Meta, i: Option<Data>, m': Meta, i': Option<Data>, newSize: nat) {
    var grown := Provisioned(m.thin, ImageOr(i), newSize);
    && (m' == m || (m' == m.(size := Some(newSize)) && i' == Some(grown)))
    && (i.Some? ==> i'.Some?)
    && (m' == m && i' != i ==>
          || i' == Some(grown)
          || (i'.Some? && ImageOr(i) <= i'.value && |i'.value| > |ImageOr(i)|)
          || (i.None? && i' == Some([])))
  }

  /** What that means for the recorded size. */
  lemma GrownFits(m: Meta, i: Option<Data>, m': Meta, i': Option<Data>, snaps: Snaps, newSize: nat)
    requires Grown(m, i, m', i', newSize) && m.size.Some? && m.size.value < newSize
    ensures Backed(Some(m), i) ==> Backed(Some(m'), i')
    ensures Fits(Some(m), i, snaps) && (m' != m || i' == i) ==> Fits(Some(m'), i', snaps)
    ensures Fits(Some(m), i, snaps) && Backed(Some(m), i) && m.ready && m' == m && i' != i ==>
              !Fits(Some(m'), i', snaps)
    ensures Fits(Some(NO_META.(size := Some(newSize))), i, snaps) && m' != m ==> Fits(Some(m'), i', snaps)
    ensures Fits(Some(m), i, snaps) && i.Some? ==> i.value <= i'.value
  {
  }

  /** Where the content of a new volume comes from. */
  datatype Source = Blank | FromSnapshot(volume: Volume, name: string) | FromVolume(volume: Volume) {
    function Objects(): set<Volume> {
      if Blank? then {} else {volume}
    }
  }

  /** What there is to restore: nothing asked for, nothing ready, or a snapshot and its volume's size. */
  datatype Origin = Nothing | Missing | Found(data: Data, size: nat, thin: bool)

  /** The image of a new volume; `base` is what its image held before. */
  function Content(origin: Origin, p: Params, base: Data): Data
    requires !origin.Missing?
  {
    if origin.Nothing? then Provisioned(p.thin, base, p.size)
    else Provisioned(origin.thin, origin.data, Max(p.size, origin.size))
  }

  lemma ContentIsBacked(origin: Origin, p: Params, base: Data)
    requires !origin.Missing?
    ensures p.size <= |Content(origin, p, base)|
  {
  }

  /** No image that an attempt leaves is larger than this, or than the image was before. */
  function LargestFill(origin: Origin, size: nat): nat {
    if origin.Found? then Max(|origin.data|, Max(size, origin.size)) else size
  }

  // ---------------------------------------------------------------- what the attempts to create a volume keep

  /** As long as there is metadata, the recorded size does not shrink. */
  predicate SizeKept(m: Option<Meta>, m': Option<Meta>) {
    m.Some? && m.value.size.Some? && m'.Some? ==> m'.value.size.Some? && m.value.size.value <= m'.value.size.value
  }

  /** What an attempt records, field by field: what was asked for, or nothing at all; the deletion marks stay. */
  lemma AttemptRecords(m: Meta, i: Option<Data>, m': Meta, i': Option<Data>, p: Params, origin: Origin)
    requires Attempted(m, i, m', i', p, origin)
    ensures m'.(ready := m.ready) == m || Records(m', p, m)
    ensures m'.ready ==> Records(m', p, m)
  {
  }

  /** An attempt records a size only if it is going to change the image. */
  lemma AttemptKeepsSize(m: Meta, i: Option<Data>, m': Meta, i': Option<Data>, p: Params, origin: Origin)
    requires Attempted(m, i, m', i', p, origin)
    requires m.size.Some? ==> m.size.value <= p.size || (i.Some? && p.size <= |i.value|)
    ensures SizeKept(Some(m), Some(m'))
  {
  }

  /** If the source fits into the request, the attempt leaves nothing larger than the recorded size. */
  lemma AttemptFits(m: Meta, i: Option<Data>, m': Meta, i': Option<Data>, snaps: Snaps, p: Params, origin: Origin)
    requires Attempted(m, i, m', i', p, origin)
    requires Fits(Some(m), i, snaps) && !m.ready
    requires m.size.Some? ==> m.size.value <= p.size || (i.Some? && p.size <= |i.value|)
    requires LargestFill(origin, p.size) <= p.size
    ensures Fits(Some(m'), i', snaps)
  {
  }

  /** The same for create_volume as a whole, which may also end before it has done anything. */
  lemma CreationFits(m: Option<Meta>, i: Option<Data>, m': Option<Meta>, i': Option<Data>, snaps: Snaps, p: Params,
                     origin: Origin)
    requires || (m' == m && i' == i)
             || (m'.Some? && Attempted((if m.Some? then m.value else NO_META).(ready := false), i, m'.value, i', p,
                 origin))
    requires m.Some? && m.value.size.Some? ==> m.value.size.value <= p.size || (i.Some? && p.size <= |i.value|)
    ensures SizeKept(m, m')
    ensures Fits(m, i, snaps) && LargestFill(origin, p.size) <= p.size ==> Fits(m', i', snaps)
  {
    if m' != m || i' != i {
      var unready := (if m.Some? then m.value else NO_META).(ready := false);
      AttemptKeepsSize(unready, i, m'.value, i', p, origin);
      if Fits(m, i, snaps) && LargestFill(origin, p.size) <= p.size {
        AttemptFits(unready, i, m'.value, i', snaps, p, origin);
      }
    }
  }

  /** A snapshot taken of a volume whose image fits, fits. */
  lemma SnapshotFits(m: Option<Meta>, i: Option<Data>, before: Snaps, after: Snaps, k: SnapKey)
    requires Fits(m, i, before) && SameBut(before, after, k) && FreshOrSame(before, after, k, m, i)
    ensures Fits(m, i, after)
  {
  }

  /** Restoring keeps every byte of the snapshot, and adds only zeros, exactly when the new image is not
      truncated below the snapshot. */
  lemma RestoreKeepsData(data: Data, srcSize: nat, srcThin: bool, p: Params, base: Data)
    ensures var image := Content(Found(data, srcSize, srcThin), p, base);
            (data <= image && forall j | |data| <= j < |image| :: image[j] == 0)
            <==> !srcThin || |data| <= Max(p.size, srcSize)
  {
  }

  /** A clone's image has exactly the size it was asked for, unless its source records more; or, for a thick source,
      holds more. */
  lemma CloneIsExactIff(data: Data, srcSize: nat, srcThin: bool, p: Params, base: Data)
    ensures |Content(Found(data, srcSize, srcThin), p, base)| == p.size
            <==> srcSize <= p.size && (srcThin || |data| <= p.size)
  {
  }
}
