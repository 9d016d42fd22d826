/** Loop devices, and attach_loop's retries around commands that may fail in any pattern. */
module LoopDevices {
  import opened Outcomes
  import opened Faults

  type File = string
  type Fs = string

  /** The filesystems the driver knows. */
  predicate Supported(fs: Fs) {
    fs in {"btrfs", "ext4", "xfs"}
  }

  /** A filesystem on an image, made by one run of mkfs: another run makes another one, of the same kind or not. */
  datatype Filesystem = Filesystem(kind: Fs, made: nat)

  /** /dev/loop0, /dev/loop1, ...: the file each of them is attached to. */
  type Loops = seq<Option<File>>

  predicate On(loops: Loops, d: nat, file: File) {
    d < |loops| && loops[d] == Some(file)
  }

  predicate Attached(loops: Loops, file: File) {
    Some(file) in loops
  }

  /** The device `losetup -f` picks: the first free one, or a node made for the purpose. */
  function FirstFree(loops: Loops): (d: nat)
    ensures d <= |loops| && (d < |loops| ==> loops[d].None?) && forall e | 0 <= e < d :: loops[e].Some?
  {
    if loops == [] || loops[0].None? then 0 else 1 + FirstFree(loops[1..])
  }

  /** `losetup -f file`. */
  function Plugged(loops: Loops, file: File): Loops {
    var d := FirstFree(loops);
    if d < |loops| then loops[d := Some(file)] else loops + [Some(file)]
  }

  /** Attaching adds exactly one device for the file, and takes none away from another. */
  lemma PluggedAddsOne(loops: Loops, file: File, d: nat)
    ensures On(Plugged(loops, file), d, file) <==> On(loops, d, file) || d == FirstFree(loops)
    ensures d != FirstFree(loops) ==> (d < |loops| <==> d < |Plugged(loops, file)|)
    ensures d != FirstFree(loops) && d < |loops| ==> Plugged(loops, file)[d] == loops[d]
  {
  }

  /** An mkfs that ended like this has written to the image. */
  predicate Wrote(f: Fate) {
    f.Works? || f.torn != []
  }

  /** The n effects from this one on work. */
  predicate AllWork(env: Env, tick: nat, n: nat) {
    forall i: nat | tick <= i < tick + n :: env.fate(i).Works?
  }

  /** What the kernel holds: the loop devices, and what is on the images. */
  class Node {
    /** Each process that serves the node meets its own faults. */
    var env: Env
    var loops: Loops
    var fs: map<File, Filesystem>
    /** How often mkfs ran. */
    var formats: nat
    /** On which images, and at which effects, a failed blkid led to the decision to format although the image held a
        filesystem. */
    var misread: set<(File, nat)>

    constructor (env: Env)
      ensures this.env == env && loops == [] && fs == map[] && formats == 0 && misread == {}
    {
      this.env := env;
      loops, fs, formats, misread := [], map[], 0, {};
    }

    /** Every filesystem was made by an earlier run of mkfs. */
    ghost predicate FsOk()
      reads this
    {
      forall f | f in fs :: fs[f].made < formats
    }

    /** get_device_fs: the kind of filesystem on an image. A blkid that fails is read as if there were none. */
    method Blkid(file: File) returns (o: Outcome, kind: Option<Fs>)
      modifies env
      ensures env.tick == old(env.tick) + 1
      ensures var f := env.fate(old(env.tick));
              && o == (if f.Crashes? then Crashed else Done)
              && kind == if f.Works? && file in fs then Some(fs[file].kind) else None
    {
      var f := env.Draw();
      o := if f.Crashes? then Crashed else Done;
      kind := if f.Works? && file in fs then Some(fs[file].kind) else None;
    }

    /** mkfs, which may end after it has written. */
    method Mkfs(file: File, kind: Fs) returns (o: Outcome)
      requires FsOk()
      modifies env, this`fs, this`formats
      ensures FsOk() && env.tick == old(env.tick) + 1 && o == env.fate(old(env.tick)).Outcome()
      ensures if Wrote(env.fate(old(env.tick))) then
                fs == old(fs)[file := Filesystem(kind, old(formats))] && formats == old(formats) + 1
              else
                fs == old(fs) && formats == old(formats)
    {
      var f := env.Draw();
      if Wrote(f) {
        fs := fs[file := Filesystem(kind, formats)];
        formats := formats + 1;
      }
      o := f.Outcome();
    }

    /** attached_loops, first device only; a loop over losetup's output. */
    method FindLoop(file: File) returns (dev: Option<nat>)
      ensures dev.Some? <==> Attached(loops, file)
      ensures dev.Some? ==> On(loops, dev.value, file)
    {
      for i := 0 to |loops|
        invariant Some(file) !in loops[..i]
      {
        if loops[i] == Some(file) {
          return Some(i);
        }
      }
      dev := None;
    }

    /** One pass of attach_loop's loop. Raised stands for an exception that the loop catches. */
    method TryAttach(file: File) returns (o: Outcome, dev: Option<nat>)
      modifies env, this`loops
      ensures loops == old(loops) || (!old(Attached(loops, file)) && loops == Plugged(old(loops), file))
      ensures dev.Some? ==> o.Done? && On(loops, dev.value, file)
      ensures env.Healthy() ==> o.Done? && Attached(loops, file) && (dev.Some? <==> old(Attached(loops, file)))
      ensures old(Attached(loops, file)) && AllWork(env, old(env.tick), 2) ==>
                o.Done? && dev.Some? && env.tick == old(env.tick) + 2
    {
      dev := None;
      :- env.Try();
      var found := FindLoop(file);
      if found.Some? {
        :- env.Try();
        o, dev := Done, found;
        return;
      }
      :- env.Act();
      var f := env.Draw();
      if f.Works? || f.torn != [] {
        PluggedAddsOne(loops, file, FirstFree(loops));
        loops := Plugged(loops, file);
      }
      o := f.Outcome();
    }

    /** attach_loop: at most 20 passes; at most one device is added, and none if the file has one; a device that
        is returned is attached to the file. */
    method AttachLoop(file: File) returns (o: Outcome, dev: nat, passes: nat)
      modifies env, this`loops
      ensures passes <= 20 && (o.Raised? ==> passes == 20)
      ensures loops == old(loops) || (!old(Attached(loops, file)) && loops == Plugged(old(loops), file))
      ensures o.Done? ==> On(loops, dev, file)
      ensures env.Healthy() ==> o.Done? && passes <= 2
      ensures old(Attached(loops, file)) && AllWork(env, old(env.tick), 2) ==> o.Done? && env.tick == old(env.tick) + 2
    {
      dev, passes := 0, 0;
      while passes < 20
        invariant passes <= 20
        invariant loops == old(loops)
                    || (!old(Attached(loops, file)) && loops == Plugged(old(loops), file) && Attached(loops, file))
        invariant env.Healthy() ==> passes <= 1 && (passes == 1 ==> Attached(loops, file))
        invariant passes == 0 ==> loops == old(loops) && env.tick == old(env.tick)
        invariant old(Attached(loops, file)) && AllWork(env, old(env.tick), 2) ==> passes == 0
      {
        passes := passes + 1;
        ghost var before := loops;
        var found;
        o, found := TryAttach(file);
        if loops != before {
          PluggedAddsOne(before, file, FirstFree(before));
        }
        if found.Some? {
          o, dev := Done, found.value;
          return;
        }
        if o.Crashed? {
          return;
        }
      }
      o := Raised;
    }
  }
}
