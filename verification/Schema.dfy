/** The chain of metadata migrations from schema version 0 to 8. */
module Schema {
  import opened Outcomes

  datatype Value = Null | Int(n: int) | Float(real) | Flag(bool) | Text(text: string) {
    /** Python's truth value. */
    predicate Truthy() {
      match this
      case Null => false
      case Int(n) => n != 0
      case Float(x) => x != 0.0
      case Flag(b) => b
      case Text(s) => s != []
    }
  }

  type Dict = map<string, Value>

  datatype Error = TooNew | NoSuchMigration | MissingKey | WrongType

  datatype Result<+T> = Ok(value: T) | Err(error: Error)

  /** The configured pools and the disk; neither changes during a migration. */
  datatype Config = Config(defaultPool: string, paths: map<string, string>, onDisk: string -> bool)

  const LATEST := 8
  const WEEK := 7 * 24 * 60 * 60

  function Get(d: Dict, key: string, otherwise: Value): Value {
    if key in d then d[key] else otherwise
  }

  function Version(d: Dict): Value {
    Get(d, "schema_version", Int(0))
  }

  /** A time stamp one week later. */
  function Later(t: Value): Result<Value> {
    match t
    case Int(n) => Ok(Int(n + WEEK))
    case Float(x) => Ok(Float(x + WEEK as real))
    case _ => Err(WrongType)
  }

  predicate Deleted(d: Dict) {
    !Get(d, "deleted_at", Null).Null?
  }

  /** The volume's directory in its pool. */
  function VolumePath(d: Dict, cfg: Config): Result<string> {
    var pool := Get(d, "storage_pool", Text(cfg.defaultPool));
    if "volume_id" !in d || !pool.Text? || pool.text !in cfg.paths then Err(MissingKey)
    else if !d["volume_id"].Text? then Err(WrongType)
    else Ok(cfg.paths[pool.text] + "/" + d["volume_id"].text)
  }

  predicate OldImagePath(d: Dict) {
    var image := Get(d, "img_file", Null);
    image.Text? && "/data" <= image.text
  }

  /** The migration from version i to version i + 1. */
  function Step(i: int, d: Dict, cfg: Config): Result<Dict> {
    var v := d["schema_version" := Int(i + 1)];
    match i
    case 0 => Ok(v)
    case 1 => Ok(if "fs_type" in d then v else v["fs_type" := Text("ext4")])
    case 2 =>
      if !Deleted(d) then Ok(v)
      else
        var gcAt := Later(d["deleted_at"]);
        if gcAt.Err? then Err(gcAt.error) else Ok(v["gc_at" := gcAt.value])
    case 3 => Ok(v["thin_provision" := Flag(true)])
    case 4 => Ok(v["ready" := Flag(true)])
    case 5 => Ok(v["storage_pool" := Text(cfg.defaultPool)])
    case 6 => Ok(v - {"reflink_attached"})
    case 7 =>
      var path := VolumePath(d, cfg);
      if path.Err? then Err(path.error)
      else if Get(d, "img_file", Null).Truthy() && !Get(d, "img_file", Null).Text? then Err(WrongType)
      else if OldImagePath(d) && cfg.onDisk(path.value + "/disk.img") then
        Ok(v["img_file" := Text(path.value + "/disk.img")]["snapshots_dir" := Text(path.value + "/snapshots")])
      else Ok(v)
    case _ => Err(NoSuchMigration)
  }

  /** The migrations from version i up to version n. */
  function Chain(d: Dict, i: int, n: int, cfg: Config): Result<Dict>
    decreases n - i
  {
    if i >= n then Ok(d)
    else
      var r := Step(i, d, cfg);
      if r.Err? then r else Chain(r.value, i + 1, n, cfg)
  }

  function Migrated(d: Dict, n: int, cfg: Config): Result<Dict> {
    if !Version(d).Int? then Err(WrongType)
    else if Version(d).n > n then Err(TooNew)
    else Chain(d, Version(d).n, n, cfg)
  }

  // Composition.

  lemma {:induction false} ChainVersion(d: Dict, i: int, n: int, cfg: Config)
    requires i < n && Chain(d, i, n, cfg).Ok?
    ensures Version(Chain(d, i, n, cfg).value) == Int(n)
    decreases n - i
  {
    if i + 1 < n {
      ChainVersion(Step(i, d, cfg).value, i + 1, n, cfg);
    }
  }

  lemma {:induction false} ChainComposes(d: Dict, i: int, a: int, b: int, cfg: Config)
    requires i <= a <= b
    ensures var r := Chain(d, i, a, cfg);
            Chain(d, i, b, cfg) == if r.Ok? then Chain(r.value, a, b, cfg) else r
    decreases a - i
  {
    if i < a {
      var r := Step(i, d, cfg);
      if r.Ok? {
        ChainComposes(r.value, i + 1, a, b, cfg);
      }
    }
  }

  /** Migrating to a and then to b is migrating to b: the same result, or the same error. */
  lemma MigratingComposes(d: Dict, a: int, b: int, cfg: Config)
    requires Version(d).Int? && Version(d).n <= a <= b
    ensures var r := Migrated(d, a, cfg);
            Migrated(d, b, cfg) == if r.Ok? then Migrated(r.value, b, cfg) else r
  {
    var i := Version(d).n;
    ChainComposes(d, i, a, b, cfg);
    if i < a && Migrated(d, a, cfg).Ok? {
      ChainVersion(d, i, a, cfg);
    }
  }

  /** The result has the target version, and migrating it again changes nothing. */
  lemma MigratingIsIdempotent(d: Dict, n: int, cfg: Config)
    requires Migrated(d, n, cfg).Ok?
    ensures Version(Migrated(d, n, cfg).value) == Int(n)
    ensures Migrated(Migrated(d, n, cfg).value, n, cfg) == Migrated(d, n, cfg)
  {
    if Version(d).n < n {
      ChainVersion(d, Version(d).n, n, cfg);
    }
    MigratingComposes(d, n, n, cfg);
  }

  // Which keys a migration may change.

  function Touched(i: int): set<string> {
    {"schema_version"} +
    match i
    case 1 => {"fs_type"}
    case 2 => {"gc_at"}
    case 3 => {"thin_provision"}
    case 4 => {"ready"}
    case 5 => {"storage_pool"}
    case 6 => {"reflink_attached"}
    case 7 => {"img_file", "snapshots_dir"}
    case _ => {}
  }

  ghost predicate SameAt(d: Dict, e: Dict, key: string) {
    (key in d <==> key in e) && (key in d ==> d[key] == e[key])
  }

  lemma StepKeeps(i: int, d: Dict, cfg: Config, key: string)
    requires Step(i, d, cfg).Ok? && key !in Touched(i)
    ensures SameAt(d, Step(i, d, cfg).value, key)
  {
  }

  lemma {:induction false} ChainKeeps(d: Dict, i: int, n: int, cfg: Config, key: string)
    requires Chain(d, i, n, cfg).Ok? && forall j | i <= j < n :: key !in Touched(j)
    ensures SameAt(d, Chain(d, i, n, cfg).value, key)
    decreases n - i
  {
    if i < n {
      StepKeeps(i, d, cfg, key);
      ChainKeeps(Step(i, d, cfg).value, i + 1, n, cfg, key);
    }
  }

  const MIGRATED_KEYS := {"schema_version", "fs_type", "gc_at", "thin_provision", "ready", "storage_pool",
                          "reflink_attached", "img_file", "snapshots_dir"}

  lemma UnrelatedKeysSurvive(d: Dict, n: int, cfg: Config, key: string)
    requires Migrated(d, n, cfg).Ok? && key !in MIGRATED_KEYS
    ensures SameAt(d, Migrated(d, n, cfg).value, key)
  {
    ChainKeeps(d, Version(d).n, n, cfg, key);
  }

  /** gc_if_needed: a volume is collected when it was deleted and its time has come. */
  predicate HasGcTime(d: Dict) {
    !Get(d, "gc_at", Null).Null?
  }

  /** A key that only step j touches ends as step j leaves it. */
  lemma Crossing(d: Dict, i: int, j: int, n: int, cfg: Config, key: string)
    requires i <= j < n && Chain(d, i, n, cfg).Ok?
    requires forall k | i <= k < n && k != j :: key !in Touched(k)
    ensures var before := Chain(d, i, j, cfg);
            && before.Ok? && SameAt(d, before.value, key)
            && Step(j, before.value, cfg).Ok?
            && SameAt(Step(j, before.value, cfg).value, Chain(d, i, n, cfg).value, key)
  {
    ChainComposes(d, i, j, n, cfg);
    var before := Chain(d, i, j, cfg).value;
    ChainKeeps(d, i, j, cfg, key);
    ChainKeeps(Step(j, before, cfg).value, j + 1, n, cfg, key);
  }

  /** The other defaults, each set exactly once, at its own version. */
  lemma CrossingDefaults(d: Dict, n: int, cfg: Config)
    requires Migrated(d, n, cfg).Ok?
    ensures var i, e := Version(d).n, Migrated(d, n, cfg).value;
            && (i <= 1 < n ==> "fs_type" in e && e["fs_type"] == Get(d, "fs_type", Text("ext4")))
            && (i <= 3 < n ==> "thin_provision" in e && e["thin_provision"] == Flag(true))
            && (i <= 5 < n ==> "storage_pool" in e && e["storage_pool"] == Text(cfg.defaultPool))
            && (i <= 6 < n ==> "reflink_attached" !in e)
  {
    var i := Version(d).n;
    if i <= 1 < n { Crossing(d, i, 1, n, cfg, "fs_type"); }
    if i <= 3 < n { Crossing(d, i, 3, n, cfg, "thin_provision"); }
    if i <= 5 < n { Crossing(d, i, 5, n, cfg, "storage_pool"); }
    if i <= 6 < n { Crossing(d, i, 6, n, cfg, "reflink_attached"); }
  }

  /** Crossing version 3 gives a collection time to deleted volumes, one week after their deletion, and to no other. */
  lemma CrossingThree(d: Dict, n: int, cfg: Config)
    requires Migrated(d, n, cfg).Ok? && Version(d).n <= 2 && 3 <= n
    ensures var e := Migrated(d, n, cfg).value;
            if "deleted_at" in d && d["deleted_at"] != Null then
              && "gc_at" in e
              && match d["deleted_at"]
                 case Int(t) => e["gc_at"] == Int(t + 604800)
                 case Float(t) => e["gc_at"] == Float(t + 604800.0)
                 case _ => false
            else
              SameAt(d, e, "gc_at")
  {
    var i := Version(d).n;
    Crossing(d, i, 2, n, cfg, "gc_at");
    ChainKeeps(d, i, 2, cfg, "deleted_at");
  }

  /** The pool that a volume of version i belongs to when it comes to version 7: older ones go to the default pool. */
  function PoolAtSeven(d: Dict, i: int, cfg: Config): Value {
    if i <= 5 || "storage_pool" !in d then Text(cfg.defaultPool) else d["storage_pool"]
  }

  /** Crossing version 8 moves the recorded paths of a volume whose image was under /data to its pool's directory, if
      the image is there by now, and leaves every other volume's paths alone. */
  lemma CrossingEight(d: Dict, n: int, cfg: Config)
    requires Migrated(d, n, cfg).Ok? && Version(d).n <= 7 && 8 <= n
    ensures var i, e := Version(d).n, Migrated(d, n, cfg).value;
            var pool := PoolAtSeven(d, i, cfg);
            && "volume_id" in d && d["volume_id"].Text? && pool.Text? && pool.text in cfg.paths
            && var path := cfg.paths[pool.text] + "/" + d["volume_id"].text;
               var outdated := "img_file" in d && d["img_file"].Text? && "/data" <= d["img_file"].text;
               if outdated && cfg.onDisk(path + "/disk.img") then
                 && "img_file" in e && e["img_file"] == Text(path + "/disk.img")
                 && "snapshots_dir" in e && e["snapshots_dir"] == Text(path + "/snapshots")
               else
                 SameAt(d, e, "img_file") && SameAt(d, e, "snapshots_dir")
  {
    var i := Version(d).n;
    Crossing(d, i, 7, n, cfg, "img_file");
    Crossing(d, i, 7, n, cfg, "snapshots_dir");
    ChainKeeps(d, i, 7, cfg, "volume_id");
    if i <= 5 {
      Crossing(d, i, 5, 7, cfg, "storage_pool");
    } else {
      ChainKeeps(d, i, 7, cfg, "storage_pool");
    }
  }

  /** Whatever the versions, no live volume becomes collectable. */
  lemma LiveStaysLive(d: Dict, n: int, cfg: Config)
    requires Migrated(d, n, cfg).Ok?
    ensures Deleted(Migrated(d, n, cfg).value) <==> Deleted(d)
  {
    UnrelatedKeysSurvive(d, n, cfg, "deleted_at");
  }

  /** Crossing version 5 makes every volume ready, one that was deleted and kept for its snapshots as well. */
  lemma CrossingFive(d: Dict, n: int, cfg: Config)
    requires Migrated(d, n, cfg).Ok? && Version(d).n <= 4 && 5 <= n
    ensures var e := Migrated(d, n, cfg).value; Get(e, "ready", Null) == Flag(true) && (Deleted(e) <==> Deleted(d))
  {
    var i := Version(d).n;
    Crossing(d, i, 4, n, cfg, "ready");
    LiveStaysLive(d, n, cfg);
  }

  // When a migration succeeds.

  /** What Python takes for false, apart from texts: such an `img_file` is as good as none. */
  predicate NoPath(v: Value) {
    v == Null || v == Int(0) || v == Float(0.0) || v == Flag(false)
  }

  /** What the steps from version i to version n read. */
  predicate Readable(d: Dict, i: int, n: int, cfg: Config) {
    && (i <= 2 < n && "deleted_at" in d && d["deleted_at"] != Null ==> d["deleted_at"].Int? || d["deleted_at"].Float?)
    && (i <= 7 < n ==>
          && "volume_id" in d && d["volume_id"].Text?
          && PoolAtSeven(d, i, cfg).Text? && PoolAtSeven(d, i, cfg).text in cfg.paths
          && ("img_file" in d ==> d["img_file"].Text? || NoPath(d["img_file"])))
  }

  lemma {:induction false} ChainSucceeds(d: Dict, i: int, n: int, cfg: Config)
    requires 0 <= i <= n <= LATEST
    ensures Chain(d, i, n, cfg).Ok? <==> Readable(d, i, n, cfg)
    decreases n - i
  {
    if i < n {
      var r := Step(i, d, cfg);
      if r.Ok? {
        ChainSucceeds(r.value, i + 1, n, cfg);
        StepReadable(i, d, n, cfg);
      }
    }
  }

  lemma StepReadable(i: int, d: Dict, n: int, cfg: Config)
    requires 0 <= i < n <= LATEST && Step(i, d, cfg).Ok?
    ensures Readable(Step(i, d, cfg).value, i + 1, n, cfg) <==> Readable(d, i, n, cfg)
  {
  }

  /** A migration succeeds exactly when the metadata is not newer and, unless it has the version already, both versions
      are known and it holds what the steps read. Metadata without a version has version 0. */
  lemma MigratingSucceedsIff(d: Dict, n: int, cfg: Config)
    ensures var v := if "schema_version" in d then d["schema_version"] else Int(0);
            var r := Migrated(d, n, cfg);
            && (r.Ok? <==> v.Int? && v.n <= n && (v.n == n || (0 <= v.n && n <= 8 && Readable(d, v.n, n, cfg))))
            && (v.Int? && n < v.n ==> r == Err(TooNew))
            && (v.Int? && 0 <= v.n <= 8 < n && Readable(d, v.n, 8, cfg) ==> r == Err(NoSuchMigration))
  {
    if Version(d).Int? && 0 <= Version(d).n < n && Version(d).n <= LATEST {
      if n <= LATEST {
        ChainSucceeds(d, Version(d).n, n, cfg);
      } else {
        ChainSucceeds(d, Version(d).n, LATEST, cfg);
        ChainComposes(d, Version(d).n, LATEST, n, cfg);
      }
    }
  }

  /** What a call that changes a dictionary gives: the new one, or what it raised. */
  function Answer(d: Dict, e: Option<Error>): Result<Dict> {
    if e.None? then Ok(d) else Err(e.value)
  }

  /** A volume's metadata: as stored, and the dictionary that the migrations change in place. */
  class Metadata {
    const cfg: Config
    var data: Dict
    var stored: Option<Dict>

    constructor (cfg: Config, stored: Option<Dict>)
      ensures this.cfg == cfg && this.stored == stored
    {
      this.cfg, this.data, this.stored := cfg, map[], stored;
    }

    method SetVersion(n: int)
      modifies this`data
      ensures data == old(data)["schema_version" := Int(n)]
    {
      data := data["schema_version" := Int(n)];
    }

    method Migrate1To2()
      modifies this`data
      ensures Step(1, old(data), cfg) == Answer(data, None)
    {
      SetVersion(2);
      if "fs_type" !in data {
        data := data["fs_type" := Text("ext4")];
      }
    }

    method Migrate2To3() returns (e: Option<Error>)
      modifies this`data
      ensures Step(2, old(data), cfg) == Answer(data, e)
    {
      SetVersion(3);
      var deletedAt := Get(data, "deleted_at", Null);
      if !deletedAt.Null? {
        var gcAt := Later(deletedAt);
        if gcAt.Err? {
          return Some(gcAt.error);
        }
        data := data["gc_at" := gcAt.value];
      }
      e := None;
    }

    method Migrate7To8() returns (e: Option<Error>)
      modifies this`data
      ensures Step(7, old(data), cfg) == Answer(data, e)
    {
      ghost var before := data;
      SetVersion(8);
      assert VolumePath(data, cfg) == VolumePath(before, cfg);
      var path := VolumePath(data, cfg);
      if path.Err? {
        return Some(path.error);
      }
      var image := Get(data, "img_file", Null);
      if image.Truthy() {
        if !image.Text? {
          return Some(WrongType);
        }
        if "/data" <= image.text {
          var imgFile := path.value + "/disk.img";
          if !cfg.onDisk(imgFile) {
            return None;
          }
          data := data["img_file" := Text(imgFile)];
          data := data["snapshots_dir" := Text(path.value + "/snapshots")];
        }
      }
      e := None;
    }

    /** The migration function of that name, if there is one. */
    method MigrateStep(i: int) returns (e: Option<Error>)
      modifies this`data
      ensures Step(i, old(data), cfg) == Answer(data, e)
    {
      e := None;
      match i
      case 0 => SetVersion(1);
      case 1 => Migrate1To2();
      case 2 => e := Migrate2To3();
      case 3 => SetVersion(4); data := data["thin_provision" := Flag(true)];
      case 4 => SetVersion(5); data := data["ready" := Flag(true)];
      case 5 => SetVersion(6); data := data["storage_pool" := Text(cfg.defaultPool)];
      case 6 => SetVersion(7); data := data - {"reflink_attached"};
      case 7 => e := Migrate7To8();
      case _ => e := Some(NoSuchMigration);
    }

    /** migrate_to */
    method MigrateTo(n: int) returns (e: Option<Error>)
      modifies this`data
      ensures Migrated(old(data), n, cfg) == Answer(data, e)
    {
      var current := Version(data);
      if !current.Int? {
        return Some(WrongType);
      }
      if current.n > n {
        return Some(TooNew);
      }
      for i := current.n to n
        invariant Chain(old(data), current.n, n, cfg) == Chain(data, i, n, cfg)
      {
        e := MigrateStep(i);
        if e.Some? {
          return;
        }
      }
      e := None;
    }

    /** migrate_metadata: what is stored is replaced by its migration, or left as it is when that raises. */
    method MigrateStored(n: int) returns (e: Option<Error>)
      modifies this
      ensures var d := if old(stored).None? then map[] else old(stored.value);
              match Migrated(d, n, cfg)
              case Ok(d') => e.None? && stored == Some(d') && Version(d') == Int(n)
              case Err(error) => e == Some(error) && stored == old(stored)
    {
      data := if stored.None? then map[] else stored.value;
      ghost var d := data;
      e := MigrateTo(n);
      if e.None? {
        MigratingIsIdempotent(d, n, cfg);
        stored := Some(data);
      }
    }
  }
}
