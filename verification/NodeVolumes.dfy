/** The volume life cycle and the node's loop devices together: the teardown of a deleted volume never looks at
    loop devices, and need not. */
module NodeVolumes {
  import opened Outcomes
  import opened Faults
  import opened Volumes
  import opened VolumeRuns
  import opened LoopDevices
  import opened StagingAreas

  /** The life cycle counts a loop device on the image exactly when the kernel has one. */
  ghost predicate Coupled(v: Volume, s: Staging)
    reads v, s, s.node
  {
    v.loops > 0 <==> Attached(s.node.loops, s.file)
  }

  /** NodeStageVolume: what it does on the node is what the life cycle takes it for. */
  method NodeStage(v: Volume, s: Staging, asBlock: bool, fallback: Fs) returns (o: Outcome)
    requires s.Ok() && Coupled(v, s)
    modifies v`loops, s.node.env, s.node`loops, s.node`fs, s.node`formats, s.node`misread, s
    ensures s.Ok() && Coupled(v, s)
    ensures v.loops == old(v.loops) || (v.IsReady() && v.HasImagePath() && old(v.loops) == 0 && v.loops == 1)
    ensures o.Done? ==> v.IsReady() && v.loops > 0 && s.Linked() && (asBlock || s.Staged())
  {
    ghost var begin;
    o, begin := s.Stage(v.IsReady() && v.HasImagePath(), asBlock, fallback);
    if v.loops == 0 && Attached(s.node.loops, s.file) {
      v.loops := 1;
    }
  }

  /** NodeUnstageVolume, of a volume with metadata and of one without. OK means clean, also where nothing looked
      for a loop device. */
  method NodeUnstage(v: Volume, s: Staging) returns (o: Outcome, notFound: bool)
    requires s.Ok() && Coupled(v, s) && v.LoopOk()
    modifies v`loops, s.node.env, s.node`loops, s
    ensures s.Ok() && Coupled(v, s)
    ensures v.loops == old(v.loops) || v.loops == 0
    ensures notFound ==> v.meta.None?
    ensures o.Done? && !notFound ==> s.Clean() && v.loops == 0
  {
    notFound := false;
    if v.meta.None? {
      o, notFound := s.UnstageDeleted();
      return;
    }
    if !v.HasImagePath() {
      o := s.UnstageOuter();
      if o.Done? {
        o := Raised;
      }
      return;
    }
    o := s.Unstage();
    if !Attached(s.node.loops, s.file) {
      v.loops := 0;
    }
  }

  datatype NodeStep =
    | Serving(r: Request)
    | StageIt(asBlock: bool, fallback: Fs)
    | UnstageIt
    | RebootIt(loops: Loops)

  /** One step of the node: a request to any volume, a call for this one, or a reboot. */
  method NodeServe(step: NodeStep, now: int, poolCow: bool, v: Volume, s: Staging, vs: set<Volume>)
    requires v in vs && s.Ok() && Coupled(v, s)
    requires step.Serving? ==> step.r.Objects() <= vs && !step.r.Moves(v)
    requires step.RebootIt? ==> !Attached(step.loops, s.file)
    requires forall u, w | u in vs && w in vs :: u.env == w.env
    requires forall u | u in vs :: Fresh.Holds(u, {})
    modifies vs, (set u | u in vs :: u.env), s.node.env, s.node`loops, s.node`fs, s.node`formats, s.node`misread, s
    ensures s.Ok() && Coupled(v, s)
    ensures forall u | u in vs :: Fresh.Holds(u, {})
  {
    match step
    case Serving(r) =>
      if Fresh.Allows(r) {
        var o := Serve(r, now, poolCow, Fresh, vs, {});
        assert forall u | u in vs :: Fresh.Holds(u, {});
      }
    case StageIt(asBlock, fallback) => var o := NodeStage(v, s, asBlock, fallback);
    case UnstageIt => var o, notFound := NodeUnstage(v, s);
    case RebootIt(loops) =>
      s.Reboot(loops);
      forall u | u in vs { u.loops := 0; }
  }

  /** Any run of the node, cut short anywhere: life cycle and loop devices stay in step. So whenever
      NodeUnstageVolume answers OK, and that goes for volumes that are long deleted, nothing of the volume is left
      on the node. */
  method NodeRun(steps: seq<NodeStep>, now: nat -> int, poolCow: bool, v: Volume, s: Staging, vs: set<Volume>)
    returns (o: Outcome, notFound: bool)
    requires v in vs && s.Ok() && Coupled(v, s)
    requires forall x | x in steps && x.Serving? :: x.r.Objects() <= vs && !x.r.Moves(v)
    requires forall x | x in steps && x.RebootIt? :: !Attached(x.loops, s.file)
    requires forall u, w | u in vs && w in vs :: u.env == w.env
    requires forall u | u in vs :: Fresh.Holds(u, {})
    modifies vs, (set u | u in vs :: u.env), s.node.env, s.node`loops, s.node`fs, s.node`formats, s.node`misread, s
    ensures s.Ok() && Coupled(v, s)
    ensures forall u | u in vs :: Fresh.Holds(u, {})
    ensures o.Done? && !notFound ==> s.Clean() && v.loops == 0
  {
    for i := 0 to |steps|
      invariant s.Ok() && Coupled(v, s)
      invariant forall u | u in vs :: Fresh.Holds(u, {})
    {
      NodeServe(steps[i], now(i), poolCow, v, s, vs);
    }
    o, notFound := NodeUnstage(v, s);
  }
}
