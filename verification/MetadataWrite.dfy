/** How `disk.meta` is replaced on disk: write `disk.meta.tmp`, fsync it, rename it over `disk.meta`, fsync the
    directory. What the kernel shows to the process is kept apart from what a power loss may leave behind.
 */
module MetadataWrite {
  import opened Outcomes
  import opened Faults

  type Inode = nat
  type Record = map<string, string>

  /** The contents of a file: a complete JSON object, or anything else. */
  datatype Text = Json(record: Record) | Garbage

  /** A file whose latest contents are not synced may hold anything after a power loss. */
  datatype File = File(text: Text, synced: bool)

  /** The entries `disk.meta` and `disk.meta.tmp` of the volume's metadata directory. */
  datatype Directory = Directory(meta: Option<Inode>, tmp: Option<Inode>)

  /** What reading `disk.meta` gives. */
  datatype Version = Missing | Whole(record: Record) | Damaged {
    /** metadata_or: no file reads as the empty record. */
    function Or(): Record {
      if Whole? then record else map[]
    }
  }

  /** The version after a patch: its keys have its values, every other key has the value that it had before, and there
      is no further key. Before the first patch there is no key at all. */
  ghost predicate Overridden(before: Version, patch: Record, after: Version) {
    && after.Whole?
    && (forall k | k in patch :: k in after.record && after.record[k] == patch[k])
    && (before.Whole? ==>
          forall k | k in before.record && k !in patch :: k in after.record && after.record[k] == before.record[k])
    && (forall k | k in after.record && k !in patch :: before.Whole? && k in before.record)
  }

  /** There is one such version only. */
  lemma OverriddenOnce(before: Version, patch: Record, v: Version, w: Version)
    requires Overridden(before, patch, v) && Overridden(before, patch, w)
    ensures v == w
  {
    assert v.record.Keys == w.record.Keys;
    assert v.record == w.record;
  }

  function Shown(files: map<Inode, File>, d: Directory): Version {
    if d.meta.None? then Missing
    else if d.meta.value !in files || files[d.meta.value].text.Garbage? then Damaged
    else Whole(files[d.meta.value].text.record)
  }

  class MetadataFile {
    const env: Env
    var files: map<Inode, File>
    /** The directory as the process sees it. */
    var shown: Directory
    /** The directories that a power loss may leave: every one since the last fsync of the directory. */
    var possible: set<Directory>

    constructor (env: Env)
      ensures Ok() && this.env == env && Versions() == {Missing}
    {
      this.env := env;
      files, shown, possible := map[], Directory(None, None), {Directory(None, None)};
    }

    ghost predicate Linked(d: Directory)
      reads this
    {
      && (d.meta.Some? ==> d.meta.value in files && files[d.meta.value].synced && files[d.meta.value].text.Json?)
      && (d.tmp.Some? ==> d.tmp.value in files && d.tmp != d.meta)
    }

    /** Whatever directory survives, its `disk.meta` is complete and synced, and what is written through the
        temporary name is not what any of them calls `disk.meta`. */
    ghost predicate Ok()
      reads this
    {
      && shown in possible
      && (forall d | d in possible :: Linked(d))
      && (shown.tmp.Some? ==> forall d | d in possible :: d.meta != shown.tmp)
    }

    function Current(): Version
      reads this
    {
      Shown(files, shown)
    }

    /** What may be read after a power loss now. */
    ghost function Versions(): set<Version>
      reads this
    {
      set d | d in possible :: Shown(files, d)
    }

    /** A power loss: one of the possible directories is on the disk, and unsynced files hold anything. */
    method PowerLoss()
      requires Ok()
      modifies this`files, this`shown, this`possible
      ensures Ok()
      ensures Current() in old(Versions()) && Versions() == {Current()}
    {
      var survivor :| survivor in possible;
      shown := survivor;
      possible := {shown};
      var lost: map<Inode, Text> := *;
      files := map i | i in files ::
        if files[i].synced || i !in lost then files[i] else File(lost[i], true);
    }

    /** The next effect of a process that may stop there with its node. */
    method Act() returns (o: Outcome)
      requires Ok()
      modifies env, this`files, this`shown, this`possible
      ensures Ok()
      ensures !o.Crashed? ==> files == old(files) && shown == old(shown) && possible == old(possible)
      ensures o.Crashed? ==> Current() in old(Versions()) && Versions() == {Current()}
      ensures env.Healthy() ==> o.Done?
    {
      o := env.Act();
      if o.Crashed? {
        PowerLoss();
      }
    }

    /** Open `disk.meta.tmp` for writing: an existing file is truncated, else there is a new one. */
    method OpenTmp() returns (o: Outcome, fd: Inode)
      requires Ok()
      modifies env, this`files, this`shown, this`possible
      ensures Ok()
      ensures o.Done? ==> shown.tmp == Some(fd) && Versions() == old(Versions()) && Current() == old(Current())
      ensures o.Raised? ==> Versions() == old(Versions()) && Current() == old(Current())
      ensures o.Crashed? ==> Current() in old(Versions()) && Versions() == {Current()}
      ensures env.Healthy() ==> o.Done?
    {
      fd := 0;
      :- Act();
      if shown.tmp.Some? {
        fd := shown.tmp.value;
        Rewritten(fd, File(Garbage, false));
        files := files[fd := File(Garbage, false)];
      } else {
        fd := Fresh();
        Created(fd);
        files := files[fd := File(Garbage, false)];
        shown := shown.(tmp := Some(fd));
        possible := possible + {shown};
      }
      o := Done;
    }

    /** An inode that is not in use. */
    method Fresh() returns (fd: Inode)
      ensures fd !in files
    {
      fd := 0;
      ghost var left := files.Keys;
      while fd in files
        invariant left == set i | i in files.Keys && fd <= i
        decreases left
      {
        fd, left := fd + 1, left - {fd};
      }
    }

    /** What is written through the temporary name is not among the versions. */
    lemma Rewritten(fd: Inode, f: File)
      requires Ok() && shown.tmp == Some(fd)
      ensures forall d | d in possible :: Shown(files[fd := f], d) == Shown(files, d)
      ensures (set d | d in possible :: Shown(files[fd := f], d)) == Versions()
    {
    }

    lemma Created(fd: Inode)
      requires Ok() && fd !in files
      ensures forall d | d in possible :: Shown(files[fd := File(Garbage, false)], d) == Shown(files, d)
      ensures (set d | d in possible + {shown.(tmp := Some(fd))} :: Shown(files[fd := File(Garbage, false)], d)) ==
                Versions()
    {
      var files' := files[fd := File(Garbage, false)];
      var named := shown.(tmp := Some(fd));
      assert Shown(files', named) == Shown(files, shown);
      assert forall v | v in (set d | d in possible + {named} :: Shown(files', d)) :: v in Versions();
      assert forall d | d in possible :: Shown(files', d) == Shown(files, d) && d in possible + {named};
    }

    /** json.dump, flush and fsync of the temporary file. */
    method WriteTmp(fd: Inode, record: Record) returns (o: Outcome)
      requires Ok() && shown.tmp == Some(fd)
      modifies env, this`files, this`shown, this`possible
      ensures Ok()
      ensures o.Done? ==> shown.tmp == Some(fd) && files[fd] == File(Json(record), true)
      ensures o.Done? ==> Versions() == old(Versions()) && Current() == old(Current())
      ensures o.Raised? ==> Versions() == old(Versions()) && Current() == old(Current())
      ensures o.Crashed? ==> Current() in old(Versions()) && Versions() == {Current()}
      ensures env.Healthy() ==> o.Done?
    {
      o := Done;
      :- Act();
      Rewritten(fd, File(Json(record), false));
      files := files[fd := File(Json(record), false)];
      :- Act();
      Rewritten(fd, File(Json(record), true));
      files := files[fd := File(Json(record), true)];
      o := Done;
    }

    /** os.replace and fsync of the directory. */
    method Publish(fd: Inode, record: Record) returns (o: Outcome)
      requires Ok() && shown.tmp == Some(fd) && files[fd] == File(Json(record), true)
      modifies env, this`files, this`shown, this`possible
      ensures Ok()
      ensures o.Done? ==> Versions() == {Whole(record)}
      ensures Versions() <= old(Versions()) + {Whole(record)}
      ensures o.Raised? ==> Current() == old(Current()) || Current() == Whole(record)
      ensures o.Crashed? ==> Versions() == {Current()}
      ensures env.Healthy() ==> o.Done?
    {
      o := Done;
      :- Act();
      shown := Directory(Some(fd), None);
      possible := possible + {shown};
      :- Act();
      possible := {shown};
      o := Done;
    }

    /** update_metadata. A power loss at any step leaves what could be read before, or the new record, complete;
        on return the new record is what any later power loss leaves. */
    method Update(record: Record) returns (o: Outcome)
      requires Ok()
      modifies env, this`files, this`shown, this`possible
      ensures Ok()
      ensures Versions() <= old(Versions()) + {Whole(record)}
      ensures o.Done? ==> Versions() == {Whole(record)} && Current() == Whole(record)
      ensures o.Raised? ==> Current() == old(Current()) || Current() == Whole(record)
      ensures o.Crashed? ==> Versions() == {Current()}
      ensures env.Healthy() ==> o.Done?
    {
      var fd;
      o, fd := OpenTmp();
      if !o.Done? {
        return;
      }
      :- WriteTmp(fd, record);
      o := Publish(fd, record);
      NeverDamaged();
    }

    /** patch_metadata: the old record overridden by the patch, or what could be read before. */
    method Patch(patch: Record) returns (o: Outcome)
      requires Ok()
      modifies env, this`files, this`shown, this`possible
      ensures Ok()
      ensures forall v | v in Versions() :: v in old(Versions()) || Overridden(old(Current()), patch, v)
      ensures o.Done? ==> Versions() == {Current()} && Overridden(old(Current()), patch, Current())
      ensures o.Done? && old(Current()).Missing? ==> Current() == Whole(patch)
      ensures o.Raised? ==> Current() == old(Current()) || Overridden(old(Current()), patch, Current())
      ensures o.Crashed? ==> Versions() == {Current()}
      ensures env.Healthy() ==> o.Done?
    {
      var before := Current().Or();
      assert Overridden(Current(), patch, Whole(before + patch)) by { NeverDamaged(); }
      o := Update(before + patch);
    }

    /** `disk.meta` is never seen damaged. */
    lemma NeverDamaged()
      requires Ok()
      ensures Damaged !in Versions() && Current() in Versions()
    {
      assert forall d | d in possible :: Linked(d);
    }
  }

  /** The j-th version of a file whose first one was replaced by each record in turn. */
  function Written(first: Version, records: seq<Record>, j: nat): Version
    requires j <= |records|
  {
    if j == 0 then first else Whole(records[j - 1])
  }

  /** Any number of updates, each of which may raise or be cut short by a power loss after any of its effects: a
      durable version is never lost to an older one. What can be read, now and after a power loss, is the last
      record whose update returned or one that a later, failed update was writing. */
  method UpdateAll(m: MetadataFile, records: seq<Record>) returns (durable: nat)
    requires m.Ok() && m.Versions() == {m.Current()}
    modifies m.env, m`files, m`shown, m`possible
    ensures m.Ok() && m.Current() in m.Versions()
    ensures durable <= |records|
    ensures forall v | v in m.Versions() :: exists j | durable <= j <= |records| ::
              v == Written(old(m.Current()), records, j)
    ensures m.env.Healthy() ==> durable == |records|
  {
    ghost var first := m.Current();
    durable := 0;
    assert m.Current() == Written(first, records, 0);
    for i := 0 to |records|
      invariant m.Ok() && durable <= i
      invariant forall v | v in m.Versions() :: exists j | durable <= j <= i :: v == Written(first, records, j)
      invariant m.env.Healthy() ==> durable == i
    {
      ghost var before := m.Versions();
      var o := m.Update(records[i]);
      assert Whole(records[i]) == Written(first, records, i + 1);
      if o.Done? {
        durable := i + 1;
      }
    }
    m.NeverDamaged();
  }

  /** Patch i is the last of the first n that sets the key. */
  predicate SetLast(patches: seq<Record>, n: nat, i: int, key: string) {
    0 <= i < n <= |patches| && key in patches[i] && forall j | i < j < n :: key !in patches[j]
  }

  predicate Reads(v: Version, key: string, value: string) {
    v.Whole? && key in v.record && v.record[key] == value
  }

  /** Any number of patches, each of which may raise or be cut short by a power loss after any of its effects: what a
      patch that returned has set is never lost, now and after a power loss, to anything but a later patch of the same
      key. */
  method PatchAll(m: MetadataFile, patches: seq<Record>) returns (done: seq<bool>)
    requires m.Ok()
    modifies m.env, m`files, m`shown, m`possible
    ensures m.Ok() && |done| == |patches|
    ensures forall i, key, v | SetLast(patches, |patches|, i, key) && done[i] && v in m.Versions() ::
              Reads(v, key, patches[i][key])
    ensures m.env.Healthy() ==> forall i | 0 <= i < |done| :: done[i]
  {
    done := [];
    for n := 0 to |patches|
      invariant m.Ok() && |done| == n
      invariant forall i, key, v | SetLast(patches, n, i, key) && done[i] && v in m.Versions() ::
                  Reads(v, key, patches[i][key])
      invariant m.env.Healthy() ==> forall i | 0 <= i < |done| :: done[i]
    {
      m.NeverDamaged();
      ghost var before, versions := m.Current(), m.Versions();
      var o := m.Patch(patches[n]);
      ghost var was := done;
      done := done + [o.Done?];
      forall i, key, v | SetLast(patches, n + 1, i, key) && done[i] && v in m.Versions()
        ensures Reads(v, key, patches[i][key])
      {
        if i < n {
          assert SetLast(patches, n, i, key) && was[i];
          assert Reads(before, key, patches[i][key]);
        }
      }
    }
  }
}
