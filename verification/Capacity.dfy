/** Capacity admission: what a pool has left, and why admitted volumes never use up what is reserved.
    Reserved capacity may be a percentage; it is a real number here, without floating-point rounding. */
module Capacity {
  import opened Outcomes

  type Id = string
  type PoolName = string

  datatype Reserved = Percent(percent: nat) | Bytes(bytes: nat)

  datatype Mode = Plain | SubtractFromTotal

  datatype Pool = Pool(total: nat, reserved: Reserved, mode: Mode)

  /** A thick volume: the pool and the size its metadata records, and the blocks that its image holds, if it has one. */
  datatype Volume = Volume(pool: PoolName, size: nat, image: Option<nat>)

  /** plain_reserved_capacity_handler. */
  function PlainReserved(total: nat, r: Reserved): real {
    match r
    case Percent(p) => (total * p) as real / 100.0
    case Bytes(b) => b as real
  }

  /** The two handlers: what is kept for everything else but this pool. */
  function ReservedOf(p: Pool): real {
    if p.mode.Plain? then PlainReserved(p.total, p.reserved) else p.total as real - PlainReserved(p.total, p.reserved)
  }

  /** What subtract-from-total keeps is what plain keeps for the rest: a pool gets the share it names. */
  lemma ModesAreComplements(total: nat, percent: nat, bytes: nat)
    requires percent <= 100 && bytes <= total
    ensures ReservedOf(Pool(total, Percent(percent), SubtractFromTotal)) ==
              ReservedOf(Pool(total, Percent(100 - percent), Plain))
    ensures ReservedOf(Pool(total, Bytes(bytes), SubtractFromTotal)) ==
              ReservedOf(Pool(total, Bytes(total - bytes), Plain))
    ensures forall m :: 0.0 <= ReservedOf(Pool(total, Percent(percent), m)) <= total as real
    ensures forall m :: 0.0 <= ReservedOf(Pool(total, Bytes(bytes), m)) <= total as real
  {
    assert total * percent + total * (100 - percent) == total * 100;
    assert (total * percent) as real + (total * (100 - percent)) as real == (total * 100) as real;
  }

  // ---------------------------------------------------------------- what the volumes of a pool hold

  function Held(v: Volume, pool: PoolName): nat {
    if v.pool == pool && v.image.Some? then v.image.value else 0
  }

  ghost function Sum(volumes: map<Id, Volume>, pool: PoolName): nat
    decreases |volumes|
  {
    if volumes == map[] then 0
    else
      var id :| id in volumes;
      Held(volumes[id], pool) + Sum(volumes - {id}, pool)
  }

  lemma {:induction false} SumWithout(volumes: map<Id, Volume>, id: Id, pool: PoolName)
    requires id in volumes
    ensures Sum(volumes, pool) == Held(volumes[id], pool) + Sum(volumes - {id}, pool)
    decreases |volumes|
  {
    var x :| x in volumes && Sum(volumes, pool) == Held(volumes[x], pool) + Sum(volumes - {x}, pool);
    if x != id {
      SumWithout(volumes - {x}, id, pool);
      SumWithout(volumes - {id}, x, pool);
      assert volumes - {x} - {id} == volumes - {id} - {x};
    }
  }

  /** Changing, adding or removing one volume changes the sum by just that volume. */
  lemma SumUpdate(volumes: map<Id, Volume>, id: Id, v: Volume, pool: PoolName)
    ensures Sum(volumes[id := v], pool) == Sum(volumes - {id}, pool) + Held(v, pool)
    ensures Sum(volumes, pool) == Sum(volumes - {id}, pool) + (if id in volumes then Held(volumes[id], pool) else 0)
  {
    SumWithout(volumes[id := v], id, pool);
    assert volumes[id := v] - {id} == volumes - {id};
    if id in volumes {
      SumWithout(volumes, id, pool);
    } else {
      assert volumes - {id} == volumes;
    }
  }

  /** What the pool's own limit leaves; negative if the limit was lowered since. */
  ghost function Headroom(volumes: map<Id, Volume>, name: PoolName, p: Pool): real {
    p.total as real - ReservedOf(p) - Sum(volumes, name) as real
  }

  /** get_capacity: what both the pool's limit and the disk leave, and never less than nothing. */
  ghost function CapacityOf(volumes: map<Id, Volume>, name: PoolName, p: Pool, free: nat): real {
    var room := Headroom(volumes, name, p);
    var both := if room < free as real then room else free as real;
    if both < 0.0 then 0.0 else both
  }

  /** What the settings leave to a pool's images, mode by mode: plain takes the reserved amount or share away from the
      total, subtract-from-total keeps exactly that for the pool. */
  ghost predicate LeavesFor(p: Pool, held: nat, room: real) {
    match (p.mode, p.reserved)
    case (Plain, Bytes(b)) => room == (p.total - b - held) as real
    case (SubtractFromTotal, Bytes(b)) => room == (b - held) as real
    case (Plain, Percent(q)) => 100.0 * room == (p.total * (100 - q) - 100 * held) as real
    case (SubtractFromTotal, Percent(q)) => 100.0 * room == (p.total * q - 100 * held) as real
  }

  /** The pool's headroom is that, whatever the settings. */
  lemma HeadroomByMode(volumes: map<Id, Volume>, name: PoolName, p: Pool)
    ensures LeavesFor(p, Sum(volumes, name), Headroom(volumes, name, p))
  {
    if p.reserved.Percent? {
      var q: int := p.reserved.percent;
      assert p.total * (100 - q) == 100 * p.total - p.total * q;
      assert (p.total * (100 - q)) as real == 100.0 * p.total as real - (p.total * q) as real;
    }
  }

  /** No image of the pool takes what is kept for others, mode by mode. */
  ghost predicate Respects(p: Pool, held: nat) {
    match (p.mode, p.reserved)
    case (Plain, Bytes(b)) => held <= p.total - b
    case (SubtractFromTotal, Bytes(b)) => held <= b
    case (Plain, Percent(q)) => 100 * held <= p.total * (100 - q)
    case (SubtractFromTotal, Percent(q)) => 100 * held <= p.total * q
  }

  lemma RespectsIffHeadroom(volumes: map<Id, Volume>, name: PoolName, p: Pool)
    ensures Respects(p, Sum(volumes, name)) <==> Headroom(volumes, name, p) >= 0.0
  {
    HeadroomByMode(volumes, name, p);
  }

  const MIN_SIZE: nat := 16 * 1024 * 1024

  class Pools {
    const pools: map<PoolName, Pool>
    var volumes: map<Id, Volume>

    constructor (pools: map<PoolName, Pool>)
      ensures this.pools == pools && volumes == map[]
      ensures WithinLimits() <==> forall name | name in pools :: ReservedOf(pools[name]) <= pools[name].total as real
    {
      this.pools, volumes := pools, map[];
    }

    /** get_volumes_stats_by_pool: the images of a pool's volumes. */
    method StatsByPool(pool: PoolName) returns (stats: map<Id, nat>)
      ensures forall id :: id in stats <==> id in volumes && volumes[id].pool == pool && volumes[id].image.Some?
      ensures forall id | id in stats :: stats[id] == volumes[id].image.value
    {
      stats := map[];
      var todo := volumes.Keys;
      while todo != {}
        invariant todo <= volumes.Keys
        invariant forall id :: id in stats <==>
                    id in volumes && id !in todo && volumes[id].pool == pool && volumes[id].image.Some?
        invariant forall id | id in stats :: stats[id] == volumes[id].image.value
        decreases |todo|
      {
        var id :| id in todo;
        var v := volumes[id];
        if v.image.Some? && v.pool == pool {
          stats := stats[id := v.image.value];
        }
        todo := todo - {id};
      }
    }

    /** get_capacity; `free` is what statvfs reports. */
    method GetCapacity(pool: PoolName, free: nat) returns (capacity: real)
      requires pool in pools
      ensures capacity == CapacityOf(volumes, pool, pools[pool], free)
      ensures exists room: real ::
                && LeavesFor(pools[pool], Sum(volumes, pool), room)
                && capacity == if room < 0.0 then 0.0 else if room < free as real then room else free as real
    {
      var stats := StatsByPool(pool);
      var used: nat := 0;
      var todo := stats.Keys;
      ghost var rest := volumes;
      while todo != {}
        invariant todo <= stats.Keys
        invariant forall id | id in rest :: id in volumes && rest[id] == volumes[id]
        invariant forall id :: id in todo <==> id in rest && volumes[id].pool == pool && volumes[id].image.Some?
        invariant used + Sum(rest, pool) == Sum(volumes, pool)
        decreases |todo|
      {
        var id :| id in todo;
        used := used + stats[id];
        SumWithout(rest, id, pool);
        rest := rest - {id};
        todo := todo - {id};
      }
      NothingHeld(rest, pool);
      var p := pools[pool];
      var room := p.total as real - ReservedOf(p) - used as real;
      var both := if room < free as real then room else free as real;
      capacity := if both < 0.0 then 0.0 else both;
      HeadroomByMode(volumes, pool, p);
    }

    /** Every pool keeps what is reserved. */
    ghost predicate WithinLimits()
      reads this
    {
      forall name | name in pools :: Headroom(volumes, name, pools[name]) >= 0.0
    }

    /** CreateVolume for a thick volume without a source: admission, then the task unless there is metadata. */
    method Create(id: Id, pool: PoolName, required: nat, free: nat) returns (status: Status)
      modifies this`volumes
      ensures status.InvalidArgument? <==> pool !in pools
      ensures pool in pools ==>
                var size := if required < 16777216 then 16777216 else required;
                status.Ok? <==> size as real <= CapacityOf(old(volumes), pool, pools[pool], free)
      ensures status.Ok? && id !in old(volumes) ==>
                var size := if required < 16777216 then 16777216 else required;
                volumes == old(volumes)[id := Volume(pool, size, Some(size))]
      ensures !status.Ok? || id in old(volumes) ==> volumes == old(volumes)
      ensures old(WithinLimits()) ==> WithinLimits()
    {
      if pool !in pools {
        return InvalidArgument;
      }
      var size := Clamped(required);
      var capacity := GetCapacity(pool, free);
      if capacity < size as real {
        return ResourceExhausted;
      }
      if id !in volumes {
        forall name { SumUpdate(volumes, id, Volume(pool, size, Some(size)), name); }
        volumes := volumes[id := Volume(pool, size, Some(size))];
      }
      status := Ok;
    }

    /** ExpandRawFile for a thick volume: fallocate makes the image hold every block of the new size. */
    method Expand(id: Id, newSize: nat, free: nat) returns (status: Status)
      requires id in volumes && volumes[id].image.Some? && volumes[id].pool in pools
      modifies this`volumes
      ensures status.Ok? || status.ResourceExhausted?
      ensures status.Ok? && newSize > old(volumes[id].size) ==>
                var held := old(volumes[id].image.value);
                var holds := if held < newSize then newSize else held;
                volumes == old(volumes)[id := Volume(old(volumes[id].pool), newSize, Some(holds))]
      ensures !status.Ok? || newSize <= old(volumes[id].size) ==> volumes == old(volumes)
      ensures status.Ok? <==>
                || old(volumes[id].size) >= newSize
                || AcceptsExpansion(old(volumes), id, newSize, pools[old(volumes[id]).pool], free)
      ensures old(WithinLimits()) ==> WithinLimits()
    {
      var v := volumes[id];
      if newSize <= v.size {
        return Ok;
      }
      var capacity := GetCapacity(v.pool, free);
      if capacity < (newSize - v.image.value) as real {
        return ResourceExhausted;
      }
      forall name { SumUpdate(volumes, id, Expanded(v, newSize), name); }
      volumes := volumes[id := Expanded(v, newSize)];
      status := Ok;
    }

    /** The image goes; whether or not metadata stays for snapshots, nothing is counted any more. */
    method Delete(id: Id, keepMetadata: bool)
      modifies this`volumes
      ensures keepMetadata && id in old(volumes) ==> volumes == old(volumes)[id := old(volumes[id]).(image := None)]
      ensures !keepMetadata || id !in old(volumes) ==> volumes == old(volumes) - {id}
      ensures old(WithinLimits()) ==> WithinLimits()
    {
      if id !in volumes {
        assert volumes - {id} == volumes;
        return;
      }
      var v := volumes[id].(image := None);
      forall name { SumUpdate(volumes, id, v, name); }
      volumes := if keepMetadata then volumes[id := v] else volumes - {id};
    }

    /** Over every run of admitted thick creations, thick expansions and deletions, whatever the disk reports as free,
        the images of a pool never hold more than the pool's total minus what is reserved. */
    method Run(requests: seq<Request>)
      requires WithinLimits()
      modifies this`volumes
      ensures WithinLimits()
      ensures forall name | name in pools :: Respects(pools[name], Sum(volumes, name))
    {
      for i := 0 to |requests|
        invariant WithinLimits()
      {
        match requests[i]
        case DoCreate(id, pool, required, free) => var s := Create(id, pool, required, free);
        case DoExpand(id, newSize, free) =>
          if id in volumes && volumes[id].image.Some? && volumes[id].pool in pools {
            var s := Expand(id, newSize, free);
          }
        case DoDelete(id, keep) => Delete(id, keep);
      }
      forall name | name in pools ensures Respects(pools[name], Sum(volumes, name)) {
        RespectsIffHeadroom(volumes, name, pools[name]);
      }
    }
  }

  datatype Status = Ok | InvalidArgument | ResourceExhausted

  datatype Request =
    | DoCreate(id: Id, pool: PoolName, required: nat, free: nat)
    | DoExpand(id: Id, newSize: nat, free: nat)
    | DoDelete(id: Id, keepMetadata: bool)

  /** No volume is smaller than 16 MiB. */
  function Clamped(required: nat): nat {
    if required < MIN_SIZE then MIN_SIZE else required
  }

  function Expanded(v: Volume, newSize: nat): Volume
    requires v.image.Some?
  {
    v.(size := newSize, image := Some(if v.image.value < newSize then newSize else v.image.value))
  }

  /** The admission test of an expansion. */
  ghost predicate AcceptsExpansion(volumes: map<Id, Volume>, id: Id, newSize: nat, p: Pool, free: nat)
    requires id in volumes && volumes[id].image.Some?
  {
    (newSize - volumes[id].image.value) as real <= CapacityOf(volumes, volumes[id].pool, p, free)
  }

  /** The incremental test agrees with a recomputation: an expansion that needs more blocks is accepted exactly when,
      afterwards, neither the pool's headroom nor the free space is negative. One that needs none is always accepted,
      even by a pool that is over its limit. */
  lemma AdmissionIsExact(volumes: map<Id, Volume>, id: Id, newSize: nat, p: Pool, free: nat)
    requires id in volumes && volumes[id].image.Some?
    ensures var v := volumes[id];
            var added := newSize - v.image.value;
            var after := volumes[id := Expanded(v, newSize)];
            AcceptsExpansion(volumes, id, newSize, p, free)
            <==> added <= 0 || (Headroom(after, v.pool, p) >= 0.0 && free - added >= 0)
  {
    SumUpdate(volumes, id, Expanded(volumes[id], newSize), volumes[id].pool);
  }

  lemma {:induction false} NothingHeld(volumes: map<Id, Volume>, pool: PoolName)
    requires forall id | id in volumes :: Held(volumes[id], pool) == 0
    ensures Sum(volumes, pool) == 0
    decreases |volumes|
  {
    if volumes != map[] {
      var id :| id in volumes && Sum(volumes, pool) == Held(volumes[id], pool) + Sum(volumes - {id}, pool);
      NothingHeld(volumes - {id}, pool);
    }
  }
}
