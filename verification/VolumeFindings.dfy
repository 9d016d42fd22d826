/** Runs that show why the promises of `VolumeRuns` need their conditions, and exactly when they do. */
module VolumeFindings {
  import opened Outcomes
  import opened Faults
  import opened Volumes
  import opened VolumeRuns

  /** Why `Fresh`: a create task that is executed again after its volume was deleted, while a snapshot kept the
      metadata, makes the volume ready again; the next collection then removes the image of a ready volume. */
  method CreateOverDeleted(env: Env) returns (v: Volume)
    requires env.Healthy()
    modifies env
    ensures fresh(v) && v.Ok() && v.IsReady() && v.image.None? && !v.ReadyIsBacked() && !v.LoopOk()
  {
    v := new Volume("pvc", env);
    var o := v.CreateVolume(Params(1, true, None, false), Blank, false);
    o := v.CreateSnapshot(SnapKey("snap", false), true, false);
    o := v.DeleteVolume(0);
    o := v.CreateVolume(Params(1, true, None, false), Blank, false);
    var collected;
    o, collected := v.Gc(0, false);
  }

  /** An attempt that ends with a ready volume keeps what loop devices and deletion marks promise if and only if the
      volume was not marked as deleted. */
  method ReadyAgain(v: Volume, p: Params, source: Source, poolCow: bool) returns (o: Outcome)
    requires v.Ok() && v.LoopOk()
    requires !source.Blank? ==> source.volume.Ok() && source.volume.env == v.env
    modifies v.env, v, source.Objects()
    ensures v.IsReady() && !old(v.IsReady()) ==> (v.LoopOk() <==> !old(v.IsDeleted()))
  {
    o := v.CreateVolume(p, source, poolCow);
  }

  /** A collection takes the image away from a ready volume, and leaves it ready, if and only if the volume is due and
      a snapshot entry keeps its metadata. */
  method CollectsReady(v: Volume, now: int) returns (o: Outcome)
    requires v.Ok() && v.ReadyIsBacked()
    modifies v.env, v
    ensures o.Done? ==> (v.ReadyIsBacked() <==> !(old(v.IsReady() && v.Collectable(now)) && v.snaps != map[]))
  {
    var collected;
    o, collected := v.Gc(now, false);
  }

  /** Together: a creation that ends ready, and then a collection. Readiness stays backed if and only if the volume was
      not marked as deleted and due before, or has no snapshot left. */
  method CreateThenCollect(v: Volume, p: Params, source: Source, poolCow: bool, now: int)
    returns (ready: bool, o: Outcome)
    requires v.Ok() && v.LoopOk() && v.ReadyIsBacked()
    requires !source.Blank? ==> source.volume.Ok() && source.volume.env == v.env
    modifies v.env, v, source.Objects()
    ensures ready && o.Done? ==> (v.ReadyIsBacked() <==> !old(v.Collectable(now)) || v.snaps == map[])
  {
    o := v.CreateVolume(p, source, poolCow);
    ready := v.IsReady();
    o := CollectsReady(v, now);
  }

  /** A thin volume of two bytes, written. */
  method TwoBytes(env: Env) returns (a: Volume)
    requires env.Healthy()
    modifies env
    ensures fresh(a) && a.env == env && a.Ok() && a.CanClone() && a.image == Some([7, 7])
    ensures a.meta.value.thin && a.meta.value.size == Some(2) && a.snaps == map[]
  {
    a := new Volume("a", env);
    var o := a.CreateVolume(Params(2, true, None, false), Blank, false);
    assert a.image == Some(Provisioned(true, [], 2));
    o := a.Stage();
    a.Write([7, 7]);
    o := a.Unstage();
  }

  /** Why `Roomy`: a clone may ask for less than its source has, and then records less than it holds. */
  method SmallClone(env: Env) returns (b: Volume)
    requires env.Healthy()
    modifies env
    ensures fresh(b) && b.env == env && b.Ok() && b.CanClone() && b.image == Some([7, 7])
    ensures b.meta.value.size == Some(1) && b.meta.value.thin && !b.FitOk()
  {
    var a := TwoBytes(env);
    b := new Volume("b", env);
    var o := b.CreateVolume(Params(1, true, None, false), FromVolume(a), false);
    assert Truncated([7, 7], 2) == [7, 7];
  }

  /** Restoring a snapshot of such a clone into another small volume cuts off data. */
  method SmallCloneLosesData(env: Env) returns (b: Volume, c: Volume)
    requires env.Healthy()
    modifies env
    ensures SnapKey("snap", false) in b.snaps && b.snaps[SnapKey("snap", false)].img == Some([7, 7])
    ensures c.IsReady() && c.image == Some([7])
  {
    b := SmallClone(env);
    c := new Volume("c", env);
    var o := b.CreateSnapshot(SnapKey("snap", false), true, false);
    o := c.CreateVolume(Params(1, true, None, false), FromSnapshot(b, "snap"), false);
    assert Truncated([7, 7], 1) == [7];
  }

  /** A blank thin volume of three bytes. */
  method ThreeBytes(env: Env) returns (a: Volume)
    requires env.Healthy()
    modifies env
    ensures fresh(a) && a.env == env && a.Ok() && a.CanClone() && a.image == Some(Zeros(3))
    ensures a.meta.value.thin && a.meta.value.size == Some(3) && a.snaps == map[]
  {
    a := new Volume("a", env);
    var o := a.CreateVolume(Params(3, true, None, false), Blank, false);
    assert Provisioned(true, [], 3) == Zeros(3);
  }

  /** Its clone, which records one byte. */
  method SmallerClone(env: Env) returns (b: Volume)
    requires env.Healthy()
    modifies env
    ensures fresh(b) && b.env == env && b.Ok() && b.IsReady() && b.image == Some(Zeros(3))
    ensures b.meta.value.size == Some(1) && b.meta.value.thin
  {
    var a := ThreeBytes(env);
    b := new Volume("b", env);
    var o := b.CreateVolume(Params(1, true, None, false), FromVolume(a), false);
    assert Truncated(Zeros(3), 3) == Zeros(3);
  }

  /** Expanding such a clone to less than it holds cuts off data as well. */
  method ExpansionCutsClone(env: Env) returns (b: Volume, before: Option<Data>)
    requires env.Healthy()
    modifies env
    ensures fresh(b) && b.IsReady() && b.meta.value.size == Some(2)
    ensures before.Some? && b.image.Some? && |before.value| == 3 && |b.image.value| == 2
  {
    b := SmallerClone(env);
    before := b.image;
    assert b.Expands(2, 1, 0);
    var o, exhausted := b.Expand(2, 1, 0);
  }

  /** A process that stops at its second effect. */
  method StopsAtSecond() returns (env: Env)
    ensures fresh(env) && env.tick == 0 && env.fate(0).Works? && env.fate(1).Crashes?
  {
    env := new Env(n => if n == 1 then Crashes([]) else Works);
  }

  /** Why an expansion must not be cut short: the process that expands a ready volume stops after it has changed
      the image and before it records the new size. */
  method HalfExpanded(env: Env) returns (v: Volume, o: Outcome)
    requires env.Healthy()
    modifies env
    ensures fresh(v) && v.Ok() && o.Crashed? && v.IsReady() && v.meta.value.size == Some(1)
    ensures v.image.Some? && |v.image.value| == 2 && !v.FitOk()
  {
    var u := new Volume("pvc", env);
    o := u.CreateVolume(Params(1, true, None, false), Blank, false);
    var next := StopsAtSecond();
    v := new Volume.Resume(u, next);
    assert v.Ok() && v.IsReady() && v.Expands(2, 1, 0);
    var exhausted;
    o, exhausted := v.Expand(2, 1, 0);
  }

  /** And that is exactly when: an expansion leaves the size of a ready volume in doubt if and only if it is neither
      superfluous nor refused, and its first effect worked and its second did not, or its first one is a fallocate
      that stopped halfway. */
  method ExpansionIsExactIff(v: Volume, newSize: nat, capacity: int, physical: nat) returns (o: Outcome)
    requires v.Ok() && v.IsReady() && v.ReadyIsBacked() && v.FitOk()
    modifies v.env, v`meta, v`image
    ensures v.FitOk() <==>
            !(old(v.Expands(newSize, capacity, physical))
              && HalfDone(v.env.fate(old(v.env.tick)), v.env.fate(old(v.env.tick) + 1), old(v.meta.value.thin),
                  newSize - old(|v.image.value|)))
  {
    ghost var expands := v.Expands(newSize, capacity, physical);
    ghost var m, i := v.meta, v.image;
    var exhausted;
    o, exhausted := v.Expand(newSize, capacity, physical);
    if !expands {
      assert v.meta == m && v.image == i;
    }
  }

  /** Of the two effects of an expansion by `more` bytes, the image changed and the metadata did not. */
  predicate HalfDone(first: Fate, second: Fate, thin: bool, more: int) {
    (first.Works? && !second.Works?) || (!first.Works? && !thin && more > 0 && first.Torn(more) != [])
  }

  /** A later expansion to at least what the image and its snapshots hold sets it right. */
  method ExpansionMends(v: Volume, newSize: nat, capacity: int, physical: nat) returns (o: Outcome)
    requires v.Ok() && v.IsReady() && v.NothingLarger(newSize) && v.Expands(newSize, capacity, physical)
    modifies v.env, v`meta, v`image
    ensures o.Done? ==> v.FitOk()
    ensures v.env.Healthy() ==> v.FitOk()
  {
    var exhausted;
    o, exhausted := v.Expand(newSize, capacity, physical);
  }

  /** A snapshot task that succeeded and is executed again takes the snapshot again: the listed, ready snapshot
      then holds what the image holds now. */
  method RetakenSnapshot(env: Env) returns (a: Volume)
    requires env.Healthy()
    modifies env
    ensures fresh(a) && SnapKey("snap", false) in a.snaps && a.snaps[SnapKey("snap", false)].Ready()
    ensures a.snaps[SnapKey("snap", false)].img == Some([8, 8])
  {
    a := TwoBytes(env);
    var o := a.CreateSnapshot(SnapKey("snap", false), true, false);
    assert a.snaps[SnapKey("snap", false)].img == Some([7, 7]);
    o := a.Stage();
    a.Write([8, 8]);
    o := a.CreateSnapshot(SnapKey("snap", false), true, false);
  }

  /** A repeated snapshot that is done keeps the content of a ready one if and only if the image is still the same. */
  method RetakesUnlessSame(v: Volume, k: SnapKey, cow: bool, freeze: bool) returns (o: Outcome)
    requires v.Ok() && k in v.snaps && v.snaps[k].Ready()
    modifies v.env, v`dir, v`snapDir, v`tempDir, v`snaps
    ensures o.Done? ==>
              && k in v.snaps && v.snaps[k].Ready()
              && (v.snaps[k].img == old(v.snaps[k].img) <==> v.image == old(v.snaps[k].img))
  {
    o := v.CreateSnapshot(k, cow, freeze);
  }

  /** A volume whose creation failed before its size was recorded cannot be deleted: DeleteVolume fails, each time. */
  method UndeletableVolume(env: Env) returns (v: Volume, created: Outcome, deleted: Outcome)
    requires env.Healthy()
    modifies env
    ensures fresh(v) && !created.Done? && !deleted.Done? && v.dir
  {
    v := new Volume("pvc", env);
    var source := new Volume("missing", env);
    created := v.CreateVolume(Params(1, true, None, false), FromVolume(source), false);
    deleted := v.DeleteVolume(0);
  }
}
