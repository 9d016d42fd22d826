/** NodeStageVolume and NodeUnstageVolume: a loop device, two symbolic links, a directory and a mount are
    built up and torn down, from whatever an earlier call that crashed, or a reboot, has left.
 */
module StagingAreas {
  import opened Outcomes
  import opened Faults
  import opened LoopDevices

  /** What is found at <staging>/device: nothing, the link to block/dev, or some other file or link. */
  datatype Entry = Absent | Link | Other

  class Staging {
    const node: Node
    const file: File
    var blockDir: bool
    /** <staging>/block/dev, the link to the loop device. */
    var devLink: Option<nat>
    var device: Entry
    var mountDir: bool
    /** The loop device mounted on <staging>/mount. */
    var mounted: Option<nat>

    constructor (node: Node, file: File)
      requires !Attached(node.loops, file) && node.FsOk()
      ensures this.node == node && this.file == file && Ok() && Clean()
    {
      this.node, this.file := node, file;
      blockDir, devLink, device, mountDir, mounted := false, None, Absent, false, None;
    }

    /** In every state between two effects: one loop device at most; what is mounted is the volume's own image,
        with a filesystem on it; and the inner link lies in its directory. */
    ghost predicate Ok()
      reads this, node
    {
      && (forall d: nat, e: nat | On(node.loops, d, file) && On(node.loops, e, file) :: d == e)
      && (mounted.Some? ==>
          mountDir && On(node.loops, mounted.value, file) && file in node.fs && Supported(node.fs[file].kind))
      && (devLink.Some? ==> blockDir)
      && node.FsOk()
    }

    /** The links lead to the volume's loop device. */
    ghost predicate Linked()
      reads this, node
    {
      blockDir && devLink.Some? && On(node.loops, devLink.value, file) && device == Link
    }

    ghost predicate Staged()
      reads this, node
    {
      Linked() && mountDir && mounted == devLink
    }

    ghost predicate Clean()
      reads this, node
    {
      !blockDir && devLink.None? && device == Absent && !mountDir && mounted.None? && !Attached(node.loops, file)
    }

    // -------------------------------------------------------------- staging

    /** be_symlink for <staging>/block/dev. */
    method LinkInner(dev: nat) returns (o: Outcome)
      requires Ok() && blockDir
      modifies node.env, this`devLink
      ensures Ok() && (o.Done? ==> devLink == Some(dev))
      ensures old(devLink) == Some(dev) ==> o.Done? && devLink == old(devLink) && node.env.tick == old(node.env.tick)
      ensures node.env.Healthy() ==> o.Done?
    {
      if devLink != Some(dev) {
        if devLink.Some? {
          :- node.env.Act();
          devLink := None;
        }
        :- node.env.Act();
        devLink := Some(dev);
      }
      o := Done;
    }

    /** be_symlink for <staging>/device. */
    method LinkOuter() returns (o: Outcome)
      modifies node.env, this`device
      ensures o.Done? ==> device == Link
      ensures old(device) == Link ==> o.Done? && device == old(device) && node.env.tick == old(node.env.tick)
      ensures node.env.Healthy() ==> o.Done?
    {
      if device != Link {
        if device == Other {
          :- node.env.Act();
          device := Absent;
        }
        :- node.env.Act();
        device := Link;
      }
      o := Done;
    }

    /** attach_loop adds a device only if there is none. */
    method Attach() returns (o: Outcome, dev: nat)
      requires Ok()
      modifies node.env, node`loops
      ensures Ok()
      ensures node.loops == old(node.loops)
                || (!old(Attached(node.loops, file)) && node.loops == Plugged(old(node.loops), file))
      ensures o.Done? ==> On(node.loops, dev, file)
      ensures node.env.Healthy() ==> o.Done?
      ensures old(Attached(node.loops, file)) && AllWork(node.env, old(node.env.tick), 2) ==>
                o.Done? && node.env.tick == old(node.env.tick) + 2
    {
      forall d: nat { PluggedAddsOne(node.loops, file, d); }
      var passes;
      o, dev, passes := node.AttachLoop(file);
    }

    /** The inner NodeStageVolume and NodePublishVolume: attach, and point both links at the device. */
    method LinkDevice() returns (o: Outcome)
      requires Ok() && blockDir
      modifies node.env, node`loops, this`devLink, this`device
      ensures Ok()
      ensures node.loops == old(node.loops)
                || (!old(Attached(node.loops, file)) && node.loops == Plugged(old(node.loops), file))
      ensures o.Done? ==> Linked()
      ensures old(Linked()) ==> devLink == old(devLink) && device == old(device) && node.loops == old(node.loops)
      ensures node.env.Healthy() ==> o.Done?
      ensures old(Linked()) && AllWork(node.env, old(node.env.tick), 2) ==>
                o.Done? && node.env.tick == old(node.env.tick) + 2
    {
      var dev;
      o, dev := Attach();
      if !o.Done? {
        return;
      }
      :- LinkInner(dev);
      o := LinkOuter();
    }

    /** mkfs runs on the filesystem that an image holds: the decision to format is taken at effect `tick` + 1, after the
        driver has found out which mkfs to take. */
    ghost predicate Reformats(tick: nat, held: Fs, fallback: Fs)
      reads node
    {
      var mkfs := node.env.fate(tick + 2);
      Misreads(tick, held, fallback) && (mkfs.Works? || mkfs.torn != [])
    }

    /** From effect `tick` on, the driver decides to format an image that holds a filesystem. */
    ghost predicate Misreads(tick: nat, held: Fs, fallback: Fs)
      reads node
    {
      && !node.env.fate(tick).Crashes?
      && ((node.env.fate(tick).Works? && Supported(held)) || Supported(fallback))
      && node.env.fate(tick + 1).Raises?
    }

    /** A failed blkid was followed by an mkfs that wrote. */
    ghost predicate Lost()
      reads this, node
    {
      exists t :: (file, t) in node.misread && Wrote(node.env.fate(t + 1))
    }

    /** get_from_device_or_fallback, and the first half of format_and_mount. An image that holds a filesystem is
        formatted if and only if the second blkid fails on it and mkfs then runs. */
    method FormatIfBlank(fallback: Fs) returns (o: Outcome, kind: Fs)
      requires Ok() && Linked()
      modifies node.env, node`fs, node`formats, node`misread
      ensures Ok() && Linked()
      ensures node.fs == old(node.fs)
                || (Supported(kind) && node.fs == old(node.fs)[file := Filesystem(kind, old(node.formats))])
      ensures file in old(node.fs) ==>
                && (node.fs[file] != old(node.fs[file]) <==>
                    Reformats(old(node.env.tick), old(node.fs[file].kind), fallback))
      ensures file in node.fs && file !in old(node.fs) ==> node.fs[file].kind == fallback
      ensures file in old(node.fs) && node.fs[file] != old(node.fs[file]) ==>
                var known := node.env.fate(old(node.env.tick)).Works? && Supported(old(node.fs[file].kind));
                node.fs[file].kind == if known then old(node.fs[file].kind) else fallback
      ensures node.formats >= old(node.formats)
      ensures node.misread == old(node.misread) +
                (if file in old(node.fs) && Misreads(old(node.env.tick), old(node.fs[file].kind), fallback)
                 then {(file, old(node.env.tick) + 1)} else {})
      ensures o.Done? ==> file in node.fs && Supported(kind) && kind in {"btrfs", "ext4", "xfs"}
      ensures file !in old(node.fs) && fallback !in {"btrfs", "ext4", "xfs"} ==> !o.Done? && node.fs == old(node.fs)
      ensures file in old(node.fs) && Supported(old(node.fs[file].kind)) && node.env.Healthy() ==>
                o.Done? && kind == old(node.fs[file].kind)
      ensures Supported(fallback) && node.env.Healthy() ==>
                o.Done? && (file !in old(node.fs) ==> kind == node.fs[file].kind)
    {
      kind := fallback;
      var found;
      o, found := node.Blkid(file);
      if !o.Done? {
        return;
      }
      if found.Some? && Supported(found.value) {
        kind := found.value;
      } else if !Supported(fallback) {
        o := Raised;
        return;
      }
      o, found := node.Blkid(file);
      if !o.Done? {
        return;
      }
      if found.None? {
        if file in node.fs {
          node.misread := node.misread + {(file, node.env.tick - 1)};
        }
        o := node.Mkfs(file, kind);
      }
    }

    /** findmnt: what is mounted on <staging>/mount. One that fails is read as if nothing were. */
    method Findmnt() returns (o: Outcome, dev: Option<nat>)
      modifies node.env
      ensures o.Done? || o.Crashed?
      ensures dev == mounted || dev.None?
      ensures node.env.Healthy() ==> o.Done? && dev == mounted
    {
      var f := node.env.Draw();
      o := if f.Crashes? then Crashed else Done;
      dev := if f.Works? then mounted else None;
    }

    /** fs.mount: a mount that findmnt has missed makes the mount command fail. */
    method Mount(kind: Fs) returns (o: Outcome)
      requires Ok() && Linked() && file in node.fs && Supported(kind)
      modifies node.env, this`mountDir, this`mounted
      ensures Ok() && Linked()
      ensures o.Done? ==> Staged()
      ensures old(Staged()) ==> mountDir == old(mountDir) && mounted == old(mounted)
      ensures node.env.Healthy() ==> (o.Done? <==> old(mounted.Some?) || node.fs[file].kind == kind)
    {
      var dev, current := devLink.value, None;
      o, current := Findmnt();
      if !o.Done? || current == Some(dev) {
        return;
      }
      if current.Some? {
        return Raised;
      }
      :- node.env.Act();
      mountDir := true;
      if mounted.Some? || node.fs[file].kind != kind {
        return Raised;
      }
      :- node.env.Act();
      mounted := Some(dev);
      o := Done;
    }

    /** format_and_mount on the device the links lead to. */
    method FormatAndMount(fallback: Fs) returns (o: Outcome)
      requires Ok() && Linked()
      modifies node.env, node`fs, node`formats, node`misread, this`mountDir, this`mounted
      ensures Ok() && Linked()
      ensures Formatted(old(node.fs), old(node.formats))
      ensures file in old(node.fs) ==>
                && (node.fs[file] != old(node.fs[file]) <==>
                    Reformats(old(node.env.tick), old(node.fs[file].kind), fallback))
      ensures file in node.fs && file !in old(node.fs) ==> node.fs[file].kind == fallback
      ensures file in old(node.fs) && node.fs[file] != old(node.fs[file]) ==>
                var known := node.env.fate(old(node.env.tick)).Works? && Supported(old(node.fs[file].kind));
                node.fs[file].kind == if known then old(node.fs[file].kind) else fallback
      ensures node.formats >= old(node.formats)
      ensures node.misread == old(node.misread) +
                (if file in old(node.fs) && Misreads(old(node.env.tick), old(node.fs[file].kind), fallback)
                 then {(file, old(node.env.tick) + 1)} else {})
      ensures o.Done? ==> Staged()
      ensures old(Staged()) ==> mountDir == old(mountDir) && mounted == old(mounted)
      ensures node.env.Healthy() && Supported(fallback) ==>
                (o.Done? <==> (file in old(node.fs) ==> Supported(old(node.fs[file].kind))))
    {
      var kind;
      o, kind := FormatIfBlank(fallback);
      if !o.Done? {
        return;
      }
      o := Mount(kind);
    }

    /** At most the volume's own image has got another filesystem, of a kind that the driver knows. */
    ghost predicate Formatted(fs: map<File, Filesystem>, formats: nat)
      reads this, node
    {
      || node.fs == fs
      || (file in node.fs && Supported(node.fs[file].kind)
          && node.fs == fs[file := Filesystem(node.fs[file].kind, formats)])
    }

    /** NodeStageVolume up to the access type: the directory, the device and the links. */
    method MakeBlock() returns (o: Outcome)
      requires Ok()
      modifies node.env, node`loops, this`blockDir, this`devLink, this`device
      ensures Ok()
      ensures node.loops == old(node.loops)
                || (!old(Attached(node.loops, file)) && node.loops == Plugged(old(node.loops), file))
      ensures o.Done? ==> Linked()
      ensures old(Linked()) ==>
                blockDir && devLink == old(devLink) && device == old(device) && node.loops == old(node.loops)
      ensures node.env.Healthy() ==> o.Done?
      ensures old(Linked()) && AllWork(node.env, old(node.env.tick), 3) ==>
                o.Done? && node.env.tick == old(node.env.tick) + 3
    {
      o := node.env.Try();
      if !o.Done? {
        return;
      }
      blockDir := true;
      o := LinkDevice();
    }

    /** NodeStageVolume; `ready` is the metadata's flag, `asBlock` the access type. `begin` is the effect at which
        it comes to the filesystem: one that the image holds is lost if and only if the second blkid from there
        fails and mkfs then writes. */
    method Stage(ready: bool, asBlock: bool, fallback: Fs) returns (o: Outcome, ghost begin: Option<nat>)
      requires Ok()
      modifies node.env, node`loops, node`fs, node`formats, node`misread, this
      ensures Ok()
      ensures node.loops == old(node.loops)
                || (!old(Attached(node.loops, file)) && node.loops == Plugged(old(node.loops), file))
      ensures Formatted(old(node.fs), old(node.formats))
      ensures node.formats >= old(node.formats)
      ensures begin.None? ==> node.fs == old(node.fs) && node.misread == old(node.misread)
      ensures begin.Some? && file in old(node.fs) ==>
                && (node.fs[file] != old(node.fs[file]) <==> Reformats(begin.value, old(node.fs[file].kind), fallback))
                && node.misread == old(node.misread) +
                     (if Misreads(begin.value, old(node.fs[file].kind), fallback)
                      then {(file, begin.value + 1)} else {})
      ensures begin.Some? && file !in old(node.fs) ==> node.misread == old(node.misread)
      ensures file in node.fs && file !in old(node.fs) ==> node.fs[file].kind == fallback
      ensures begin.Some? && file in old(node.fs) && node.fs[file] != old(node.fs[file]) ==>
                var known := node.env.fate(begin.value).Works? && Supported(old(node.fs[file].kind));
                node.fs[file].kind == if known then old(node.fs[file].kind) else fallback
      ensures o.Done? && !asBlock ==> begin.Some?
      ensures old(Linked()) && ready && !asBlock && AllWork(node.env, old(node.env.tick), 3) ==>
                begin == Some(old(node.env.tick) + 3)
      ensures o.Done? ==> ready && Linked() && (asBlock || Staged())
      ensures !ready ==>
                && o.Raised? && node.loops == old(node.loops)
                && Same(old(blockDir), old(devLink), old(device), old(mountDir), old(mounted))
      ensures asBlock || !ready ==> mountDir == old(mountDir) && mounted == old(mounted) && node.fs == old(node.fs)
      ensures old(Staged()) ==>
                && node.loops == old(node.loops)
                && Same(old(blockDir), old(devLink), old(device), old(mountDir), old(mounted))
      ensures node.env.NeverRaises() && file in old(node.fs) ==> node.fs == old(node.fs)
      ensures node.env.Healthy() && ready && Supported(fallback) ==>
                (o.Done? <==> asBlock || (file in old(node.fs) ==> Supported(old(node.fs[file].kind))))
    {
      begin := None;
      if !ready {
        o := Raised;
        return;
      }
      o := MakeBlock();
      if o.Done? && !asBlock {
        begin := Some(node.env.tick);
        o := FormatAndMount(fallback);
      }
    }

    // -------------------------------------------------------------- unstaging

    /** declarative.unmount on <staging>/mount. The directory of a mount that findmnt has missed is busy. */
    method Unmount() returns (o: Outcome)
      requires Ok()
      modifies node.env, this`mountDir, this`mounted
      ensures Ok() && (mountDir ==> old(mountDir)) && (mounted == old(mounted) || mounted.None?)
      ensures o.Done? ==> !mountDir && mounted.None?
      ensures node.env.Healthy() ==> o.Done?
    {
      if !mountDir {
        return Done;
      }
      var current;
      o, current := Findmnt();
      if !o.Done? {
        return;
      }
      if current.Some? {
        :- node.env.Act();
        o, current := Findmnt();
        if !o.Done? {
          return;
        }
        if current.Some? {
          :- node.env.Act();
          mounted := None;
        }
      }
      if mounted.Some? {
        return Raised;
      }
      :- node.env.Act();
      mountDir := false;
      o := Done;
    }

    /** Devices of the file may have been detached; nothing else happened to any device. */
    ghost predicate Fewer(was: Loops, loops: Loops) {
      && |loops| == |was|
      && (forall d: nat | d < |was| && !On(was, d, file) :: loops[d] == was[d])
      && (forall d: nat | On(was, d, file) :: loops[d] == was[d] || loops[d].None?)
      && (forall d: nat | On(loops, d, file) :: On(was, d, file))
    }

    /** detach_loops: every device of the file. */
    method DetachLoops() returns (o: Outcome)
      requires Ok() && mounted.None?
      modifies node.env, node`loops
      ensures Ok()
      ensures Fewer(old(node.loops), node.loops)
      ensures o.Done? ==> !Attached(node.loops, file)
      ensures node.env.Healthy() ==> o.Done?
    {
      o := Done;
      :- node.env.Act();
      for d := 0 to |node.loops|
        invariant Fewer(old(node.loops), node.loops)
        invariant Some(file) !in node.loops[..d]
      {
        if node.loops[d] == Some(file) {
          :- node.env.Act();
          node.loops := node.loops[d := None];
        }
      }
      o := Done;
    }

    /** The first half of NodeUnstageVolume: the mount and the outer link. */
    method UnstageOuter() returns (o: Outcome)
      requires Ok()
      modifies node.env, this`mountDir, this`mounted, this`device
      ensures Ok() && (mountDir ==> old(mountDir)) && (mounted == old(mounted) || mounted.None?)
                && (device == old(device) || device == Absent)
      ensures o.Done? ==> !mountDir && mounted.None? && device == Absent
      ensures node.env.Healthy() ==> o.Done?
    {
      o := Unmount();
      if o.Done? && device != Absent {
        :- node.env.Act();
        device := Absent;
      }
    }

    /** NodeUnstageVolume of a volume that has metadata. */
    method Unstage() returns (o: Outcome)
      requires Ok()
      modifies node.env, node`loops, this
      ensures Ok()
      ensures Fewer(old(node.loops), node.loops)
      ensures o.Done? ==> Clean()
      ensures old(Clean()) ==>
                && node.loops == old(node.loops)
                && Same(old(blockDir), old(devLink), old(device), old(mountDir), old(mounted))
      ensures node.env.Healthy() ==> o.Done?
    {
      o := Done;
      :- UnstageOuter();
      if devLink.Some? {
        :- node.env.Act();
        devLink := None;
      }
      :- DetachLoops();
      if blockDir {
        :- node.env.Act();
        blockDir := false;
      }
      o := Done;
    }

    /** NodeUnstageVolume of a volume whose metadata is gone: clear_deleted_volume. It answers OK only if nothing
        is mounted, even if findmnt fails: the directory of a mount is busy. It never looks at loop devices. */
    method UnstageDeleted() returns (o: Outcome, notFound: bool)
      requires Ok()
      modifies node.env, this
      ensures Ok() && mounted == old(mounted)
      ensures notFound ==> old(mounted.Some?)
      ensures node.env.Healthy() ==> o.Done? && (notFound <==> old(mounted.Some?))
      ensures notFound || old(mounted.Some?) ==>
                Same(old(blockDir), old(devLink), old(device), old(mountDir), old(mounted))
      ensures o.Done? && !notFound ==> !mountDir && device == Absent && devLink.None? && !blockDir && mounted.None?
    {
      var current;
      notFound := false;
      o, current := Findmnt();
      if !o.Done? {
        return;
      }
      if current.Some? {
        notFound := true;
        return;
      }
      :- node.env.Act();
      if mountDir {
        if mounted.Some? {
          o := Raised;
          return;
        }
        :- node.env.Act();
        mountDir := false;
      }
      o := Done;
      if device != Absent {
        :- node.env.Act();
        device := Absent;
      }
      if devLink.Some? {
        :- node.env.Act();
        devLink := None;
      }
      if blockDir {
        :- node.env.Act();
        blockDir := false;
      }
    }

    /** A reboot: no loop device and no mount survives; other volumes may be attached anywhere afterwards. */
    method Reboot(loops: Loops)
      requires Ok() && !Attached(loops, file)
      modifies node`loops, this`mounted
      ensures Ok() && node.loops == loops && mounted.None?
    {
      node.loops, mounted := loops, None;
    }

    ghost predicate NeverMisread()
      reads this, node
    {
      forall t :: (file, t) !in node.misread
    }

    /** What became of a filesystem that the image held at first, when mkfs had run so often. */
    ghost predicate Kept(fs: map<File, Filesystem>, formats: nat)
      reads this, node
    {
      && (file in fs ==> file in node.fs)
      && (file in fs && !Lost() ==> node.fs[file] == fs[file])
      && (file in fs && Lost() ==> node.fs[file].made >= formats)
      && (file in node.fs && (file in fs ==> Lost()) ==> Supported(node.fs[file].kind))
    }

    /** What the image holds is of one of these kinds, or of the kind that it held at first. */
    ghost predicate Among(kinds: set<Fs>, fs: map<File, Filesystem>)
      reads this, node
    {
      file in node.fs ==> node.fs[file].kind in kinds || (file in fs && node.fs[file].kind == fs[file].kind)
    }

    /** Other volumes attach and detach their own devices. */
    method Others(loops: Loops)
      requires Ok() && SameDevices(node.loops, loops)
      modifies node`loops
      ensures Ok() && node.loops == loops
    {
      node.loops := loops;
    }

    /** The devices of this volume's image are the same. */
    predicate SameDevices(loops: Loops, loops': Loops) {
      && (forall d | 0 <= d < |loops| :: On(loops, d, file) ==> On(loops', d, file))
      && (forall d | 0 <= d < |loops'| :: On(loops', d, file) ==> On(loops, d, file))
    }

    ghost predicate Same(blockDir': bool, devLink': Option<nat>, device': Entry, mountDir': bool, mounted': Option<nat>)
      reads this
    {
      blockDir == blockDir' && devLink == devLink' && device == device' && mountDir == mountDir' && mounted == mounted'
    }
  }

  /** One call of the node plugin; a reboot, after which other volumes occupy these loop devices; or other volumes
      taking and freeing devices in between. */
  datatype Call =
    | DoStage(ready: bool, asBlock: bool, fallback: Fs)
    | DoUnstage
    | DoReboot(loops: Loops)
    | DoOthers(loops: Loops)

  /** The kinds of filesystem that these calls ask for. */
  ghost function Asked(calls: seq<Call>): set<Fs> {
    set c | c in calls && c.DoStage? && c.ready && !c.asBlock :: c.fallback
  }

  /** Whatever calls were made and wherever they were cut short: a filesystem that was on the image stays, if and
      only if no failed blkid was followed by an mkfs that wrote; so it is never lost by crashes alone. What else
      is made is of a kind the driver knows, namely one that a call asked for or the one there was at first, and
      no other image is touched. */
  method AnyHistory(s: Staging, calls: seq<Call>)
    requires s.Ok() && s.NeverMisread()
    requires forall c | c in calls && c.DoReboot? :: !Attached(c.loops, s.file)
    modifies s.node.env, s.node`loops, s.node`fs, s.node`formats, s.node`misread, s
    ensures s.Ok() && s.node.formats >= old(s.node.formats) && s.node.env == old(s.node.env)
    ensures s.file in old(s.node.fs) ==>
              s.file in s.node.fs && (s.node.fs[s.file] == old(s.node.fs[s.file]) <==> !s.Lost())
    ensures forall t | (s.file, t) in s.node.misread :: s.node.env.fate(t).Raises?
    ensures s.file in s.node.fs && (s.file in old(s.node.fs) ==> s.Lost()) ==> Supported(s.node.fs[s.file].kind)
    ensures s.file in s.node.fs ==>
              || (s.file in old(s.node.fs) && s.node.fs[s.file].kind == old(s.node.fs[s.file].kind))
              || exists c | c in calls :: c.DoStage? && c.ready && !c.asBlock && c.fallback == s.node.fs[s.file].kind
    ensures s.node.env.NeverRaises() ==> !s.Lost()
    ensures s.node.fs - {s.file} == old(s.node.fs) - {s.file}
  {
    for i := 0 to |calls|
      invariant s.Ok() && s.node.formats >= old(s.node.formats)
      invariant forall t | (s.file, t) in s.node.misread :: s.node.env.fate(t).Raises?
      invariant s.Kept(old(s.node.fs), old(s.node.formats)) && s.Among(Asked(calls), old(s.node.fs))
      invariant s.node.fs - {s.file} == old(s.node.fs) - {s.file}
    {
      match calls[i]
      case DoStage(ready, asBlock, fallback) =>
        assert calls[i] in calls;
        StageOnce(s, ready, asBlock, fallback, old(s.node.fs), old(s.node.formats), Asked(calls));
      case DoUnstage => var o := s.Unstage();
      case DoReboot(loops) => s.Reboot(loops);
      case DoOthers(loops) =>
        if s.SameDevices(s.node.loops, loops) {
          s.Others(loops);
        }
    }
  }

  /** One Stage in such a history. */
  method StageOnce(s: Staging, ready: bool, asBlock: bool, fallback: Fs, ghost fs: map<File, Filesystem>,
                   ghost formats: nat, ghost kinds: set<Fs>)
    requires s.Ok() && s.node.formats >= formats && s.Kept(fs, formats)
    requires s.Among(kinds, fs) && (ready && !asBlock ==> fallback in kinds)
    requires forall t | (s.file, t) in s.node.misread :: s.node.env.fate(t).Raises?
    modifies s.node.env, s.node`loops, s.node`fs, s.node`formats, s.node`misread, s
    ensures s.Ok() && s.node.formats >= old(s.node.formats) && s.Kept(fs, formats) && s.Among(kinds, fs)
    ensures forall t | (s.file, t) in s.node.misread :: s.node.env.fate(t).Raises?
    ensures s.node.fs - {s.file} == old(s.node.fs) - {s.file}
  {
    ghost var before, held := s.node.misread, s.node.fs;
    var o; ghost var begin;
    o, begin := s.Stage(ready, asBlock, fallback);
    if begin.Some? && s.file in held {
      if s.node.fs[s.file] != held[s.file] {
        assert (s.file, begin.value + 1) in s.node.misread;
      } else {
        assert forall t | (s.file, t) in s.node.misread && Wrote(s.node.env.fate(t + 1)) :: (s.file, t) in before;
      }
    }
  }

  /** After any such history, a process that meets no fault stages the volume, unless its image still holds a
      filesystem that the driver does not know. */
  method StageAfterAnyHistory(s: Staging, calls: seq<Call>, calm: Env, fallback: Fs)
    returns (o: Outcome, ghost lost: bool)
    requires s.Ok() && calm.Healthy() && s.NeverMisread()
    requires forall c | c in calls && c.DoReboot? :: !Attached(c.loops, s.file)
    requires Supported(fallback)
    modifies s.node.env, s.node, s, calm
    ensures lost ==> exists t :: (s.file, t) in s.node.misread && MisreadAt(old(s.node.env), t)
    ensures o.Done? <==> (s.file in old(s.node.fs) && !lost ==> Supported(old(s.node.fs[s.file].kind)))
    ensures o.Done? ==> s.Staged()
    ensures s.file in old(s.node.fs) ==>
              s.file in s.node.fs && (s.node.fs[s.file] == old(s.node.fs[s.file]) <==> !lost)
    ensures s.file !in old(s.node.fs) && s.file in s.node.fs ==>
              || s.node.fs[s.file].kind == fallback
              || exists c | c in calls :: c.DoStage? && c.ready && !c.asBlock && c.fallback == s.node.fs[s.file].kind
  {
    AnyHistory(s, calls);
    lost := s.Lost();
    assert lost ==> exists t :: (s.file, t) in s.node.misread && MisreadAt(s.node.env, t);
    s.node.env := calm;
    ghost var begin;
    o, begin := s.Stage(true, false, fallback);
  }

  /** In this process, the command at this effect failed and the next one wrote. */
  ghost predicate MisreadAt(env: Env, t: nat) {
    env.fate(t).Raises? && Wrote(env.fate(t + 1))
  }

  /** After any such history, a process that meets no fault leaves nothing behind. */
  method UnstageAfterAnyHistory(s: Staging, calls: seq<Call>, calm: Env) returns (o: Outcome)
    requires s.Ok() && calm.Healthy() && s.NeverMisread()
    requires forall c | c in calls && c.DoReboot? :: !Attached(c.loops, s.file)
    modifies s.node.env, s.node, s, calm
    ensures o.Done? && s.Clean()
  {
    AnyHistory(s, calls);
    s.node.env := calm;
    o := s.Unstage();
  }

  /** A process whose fifth effect fails: a Stage of a volume that is linked already comes to its second blkid there. */
  method FifthFails() returns (env: Env)
    ensures fresh(env) && env.tick == 0 && forall n: nat :: if n == 4 then env.fate(n).Raises? else env.fate(n).Works?
  {
    env := new Env(n => if n == 4 then Raises([]) else Works);
  }

  /** A volume that was staged as a filesystem, unstaged, and staged as a block device. */
  method UsedAsBlock(calm: Env) returns (s: Staging)
    requires calm.Healthy()
    modifies calm
    ensures fresh(s) && fresh(s.node) && s.Ok() && s.Linked() && s.file in s.node.fs
              && Supported(s.node.fs[s.file].kind)
  {
    var node := new Node(calm);
    s := new Staging(node, "disk.img");
    ghost var begin;
    var o;
    o, begin := s.Stage(true, false, "ext4");
    o := s.Unstage();
    o, begin := s.Stage(true, true, "ext4");
  }

  /** A filesystem is lost: such a volume is staged as a filesystem again, by a process whose blkid fails once. */
  method LosesFilesystem(calm: Env) returns (s: Staging, before: map<File, Filesystem>, o: Outcome)
    requires calm.Healthy()
    modifies calm
    ensures fresh(s) && fresh(s.node) && s.file in before && s.file in s.node.fs
    ensures s.node.fs[s.file] != before[s.file]
  {
    s := UsedAsBlock(calm);
    before := s.node.fs;
    s.node.env := FifthFails();
    ghost var begin;
    o, begin := s.Stage(true, false, "ext4");
  }
}
