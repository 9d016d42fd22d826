/** The cache of channels and stubs per target of node-to-node calls. */
module StubCache {
  import opened Outcomes
  import opened HostPorts

  /** A channel to a target, of one of the two kinds; the number tells apart those opened one after another. */
  datatype Channel = Channel(target: string, aio: bool, number: nat)

  datatype Stub = Stub(channel: Channel)

  /** The channels and stubs of one kind: blocking, or owned by an event loop. */
  datatype Table = Table(channels: map<string, Channel>, stubs: map<string, Stub>) {
    /** Every cached stub speaks over the open channel that is cached for the same target; these are all of them. */
    ghost predicate Ok(aio: bool, count: nat, closed: set<Channel>) {
      && channels.Keys == stubs.Keys
      && forall t | t in channels ::
           && stubs[t] == Stub(channels[t]) && channels[t] !in closed
           && channels[t].target == t && channels[t].aio == aio && channels[t].number < count
    }

    function With(t: string, c: Channel): Table {
      Table(channels[t := c], stubs[t := Stub(c)])
    }

    function Without(t: string): Table {
      Table(channels - {t}, stubs - {t})
    }
  }

  class Cache {
    const codec: Codec
    var sync: Table
    var async: Table
    /** The event loops that own async channels, and those of them that were closed. */
    var loops: map<string, nat>
    var closedLoops: set<nat>
    var count: nat
    var closed: set<Channel>

    constructor (addresses: Addresses, port: nat)
      requires addresses.Ok()
      ensures Valid() && codec == HostPort(addresses, port)
    {
      HostPortRoundTrips(addresses, port);
      codec := HostPort(addresses, port);
      sync, async := Table(map[], map[]), Table(map[], map[]);
      loops, closedLoops, count, closed := map[], {}, 0, {};
    }

    /** A target is what an address is built into. */
    ghost predicate Target(t: string) {
      exists a :: codec.build(a) == Some(t)
    }

    ghost predicate Targets(ts: set<string>) {
      forall t | t in ts :: Target(t)
    }

    ghost predicate Valid()
      reads this
    {
      && codec.RoundTrips()
      && sync.Ok(false, count, closed) && async.Ok(true, count, closed)
      && Targets(sync.channels.Keys) && Targets(async.channels.Keys)
      && loops.Keys <= async.channels.Keys
      && forall c | c in closed :: c.number < count
    }

    method GetSync(target: string) returns (stub: Stub)
      requires Valid() && Target(target)
      modifies this`sync, this`count
      ensures Valid()
      ensures target in sync.stubs && stub == sync.stubs[target]
      ensures if target in old(sync.stubs) then sync == old(sync) else sync == old(sync).With(target, stub.channel)
    {
      if target in sync.stubs {
        return sync.stubs[target];
      }
      var channel := Channel(target, false, count);
      count := count + 1;
      sync := sync.With(target, channel);
      stub := Stub(channel);
    }

    method GetAsync(target: string, running: Option<nat>) returns (stub: Stub)
      requires Valid() && Target(target)
      modifies this`async, this`loops, this`count
      ensures Valid()
      ensures target in async.stubs && stub == async.stubs[target]
      ensures if target in old(async.stubs) then async == old(async) else async == old(async).With(target, stub.channel)
      ensures loops == if target in old(async.stubs) || running.None? then old(loops)
                       else old(loops)[target := running.value]
    {
      if target in async.stubs {
        return async.stubs[target];
      }
      var channel := Channel(target, true, count);
      count := count + 1;
      async := async.With(target, channel);
      stub := Stub(channel);
      if running.Some? {
        loops := loops[target := running.value];
      }
    }

    /** get_internal_grpc_stub: the cached stub of the address's target, else a new one over a new channel to it. */
    method Get(address: string, aio: bool, running: Option<nat>) returns (stub: Option<Stub>)
      requires Valid()
      modifies this`sync, this`async, this`loops, this`count
      ensures Valid()
      ensures stub.Some? <==> codec.build(address).Some?
      ensures stub.Some? ==>
                && stub.value.channel.target == codec.build(address).value
                && stub.value.channel.aio == aio && stub.value.channel !in closed
      ensures !aio || stub.None? ==> async == old(async) && loops == old(loops)
      ensures aio || stub.None? ==> sync == old(sync)
      ensures forall t | t in old(sync.stubs) :: t in sync.stubs && sync.stubs[t] == old(sync.stubs[t])
      ensures forall t | t in old(async.stubs) :: t in async.stubs && async.stubs[t] == old(async.stubs[t])
      ensures stub.Some? ==> stub.value in (if aio then async else sync).stubs.Values
    {
      var built := codec.build(address);
      if built.None? {
        return None;
      }
      var target := built.value;
      var s;
      if aio {
        s := GetAsync(target, running);
        assert target in async.stubs.Keys;
      } else {
        s := GetSync(target);
        assert target in sync.stubs.Keys;
      }
      stub := Some(s);
    }

    predicate Alive(t: string, live: set<string>) {
      var address := codec.extract(t);
      address.Some? && address.value in live
    }

    /** What a prune has made of a table so far, when it has yet to look at the targets in `left`. */
    ghost predicate Pruning(before: Table, after: Table, left: set<string>, live: set<string>) {
      && left <= after.channels.Keys == after.stubs.Keys
      && (forall t :: t in after.channels <==> t in before.channels && (t in left || Alive(t, live)))
      && (forall t | t in after.channels ::
          t in before.stubs && after.channels[t] == before.channels[t] && after.stubs[t] == before.stubs[t])
    }

    lemma PruneStep(before: Table, after: Table, left: set<string>, live: set<string>, t: string)
      requires Pruning(before, after, left, live) && t in left
      ensures Alive(t, live) ==> Pruning(before, after, left - {t}, live)
      ensures !Alive(t, live) ==> Pruning(before, after.Without(t), left - {t}, live)
    {
    }

    /** The channel was in the table, and its target is not any more. */
    predicate Left(before: Table, after: Table, c: Channel) {
      c.target in before.channels && c.target !in after.channels && before.channels[c.target] == c
    }

    /** Channels are closed only when they leave the table, and then exactly those in `must` are. */
    ghost predicate Closing(before: Table, after: Table, closed: set<Channel>, closed': set<Channel>,
                            must: set<string>) {
      && closed <= closed'
      && (forall c | c in closed' && c !in closed :: c.target in must && Left(before, after, c))
      && (forall t | t in must && t in before.channels && t !in after.channels :: before.channels[t] in closed')
    }

    lemma ClosingStep(before: Table, after: Table, closed: set<Channel>, closed': set<Channel>, must: set<string>,
                      t: string)
      requires Closing(before, after, closed, closed', must) && t in after.channels && t in before.channels
      requires before.channels[t] == after.channels[t] && before.channels[t].target == t
      ensures t in must ==> Closing(before, after.Without(t), closed, closed' + {after.channels[t]}, must)
      ensures t !in must ==> Closing(before, after.Without(t), closed, closed', must)
    {
    }

    /** Pruning one table after the other: what either prune closes is what left its own table. */
    lemma ClosedInTurn(sync: Table, sync': Table, async: Table, async': Table, c0: set<Channel>, c1: set<Channel>,
                       c2: set<Channel>, must: set<string>, count: nat)
      requires sync.Ok(false, count, c0) && async.Ok(true, count, c0)
      requires Closing(async, async', c0, c1, must) && Closing(sync, sync', c1, c2, sync.channels.Keys)
      ensures forall t | t in sync.channels && t !in sync'.channels :: sync.channels[t] in c2
      ensures forall t | t in async.channels && t !in async'.channels :: async.channels[t] in c2 <==> t in must
      ensures forall c | c in c2 && c !in c0 :: Left(sync, sync', c) || Left(async, async', c)
    {
    }

    /** The targets whose channels have an event loop to close them on. */
    function OnLoops(loops: map<string, nat>): set<string>
      reads this`closedLoops
    {
      set t | t in loops && loops[t] !in closedLoops
    }

    ghost predicate Owned(loops: map<string, nat>, loops': map<string, nat>, ts: set<string>) {
      && (forall t :: t in loops' <==> t in loops && t in ts)
      && (forall t | t in loops' :: loops'[t] == loops[t])
    }

    /** An async channel is closed on its event loop, if that is still there; else it only drops out. */
    method EvictAsync(target: string)
      requires target in async.channels
      modifies this`async, this`loops, this`closed
      ensures async == old(async).Without(target) && loops == old(loops) - {target}
      ensures closed == if target in OnLoops(old(loops)) then old(closed) + {old(async.channels[target])}
                        else old(closed)
    {
      if target in loops && loops[target] !in closedLoops {
        closed := closed + {async.channels[target]};
      }
      async, loops := async.Without(target), loops - {target};
    }

    method PruneAsync(live: set<string>)
      requires Valid()
      modifies this`async, this`loops, this`closed
      ensures Valid()
      ensures Pruning(old(async), async, {}, live)
                && Closing(old(async), async, old(closed), closed, OnLoops(old(loops)))
      ensures Owned(old(loops), loops, async.channels.Keys)
    {
      var left := async.channels.Keys;
      while left != {}
        invariant Pruning(old(async), async, left, live)
                    && Closing(old(async), async, old(closed), closed, OnLoops(old(loops)))
        invariant Owned(old(loops), loops, async.channels.Keys)
      {
        var target :| target in left;
        PruneStep(old(async), async, left, live, target);
        left := left - {target};
        if !Alive(target, live) {
          ClosingStep(old(async), async, old(closed), closed, OnLoops(old(loops)), target);
          EvictAsync(target);
        }
      }
    }

    method EvictSync(target: string)
      requires target in sync.channels
      modifies this`sync, this`closed
      ensures sync == old(sync).Without(target) && closed == old(closed) + {old(sync.channels[target])}
    {
      closed := closed + {sync.channels[target]};
      sync := sync.Without(target);
    }

    method PruneSync(live: set<string>)
      requires Valid()
      modifies this`sync, this`closed
      ensures Valid()
      ensures Pruning(old(sync), sync, {}, live)
                && Closing(old(sync), sync, old(closed), closed, old(sync.channels.Keys))
    {
      var left := sync.channels.Keys;
      while left != {}
        invariant Pruning(old(sync), sync, left, live)
                    && Closing(old(sync), sync, old(closed), closed, old(sync.channels.Keys))
      {
        var target :| target in left;
        PruneStep(old(sync), sync, left, live, target);
        left := left - {target};
        if !Alive(target, live) {
          ClosingStep(old(sync), sync, old(closed), closed, old(sync.channels.Keys), target);
          EvictSync(target);
        }
      }
    }

    /** prune_stale_stubs: of either kind, the targets left are exactly the former ones whose address is live, with the
        stub that they had; and only channels of other targets were closed. */
    method Prune(live: set<string>)
      requires Valid()
      modifies this`sync, this`async, this`loops, this`closed
      ensures Valid()
      ensures forall a | codec.build(a).Some? ::
                var t := codec.build(a).value;
                && (t in sync.stubs <==> t in old(sync.stubs) && a in live)
                && (t in async.stubs <==> t in old(async.stubs) && a in live)
      ensures forall t | t in sync.stubs :: t in old(sync.stubs) && sync.stubs[t] == old(sync.stubs[t])
      ensures forall t | t in async.stubs :: t in old(async.stubs) && async.stubs[t] == old(async.stubs[t])
      ensures forall t | t in old(sync.stubs) && t !in sync.stubs :: old(sync.channels[t]) in closed
      ensures forall t | t in old(async.stubs) && t !in async.stubs ::
                old(async.channels[t]) in closed <==> t in old(loops) && old(loops[t]) !in closedLoops
      ensures forall c | c in closed && c !in old(closed) :: Left(old(sync), sync, c) || Left(old(async), async, c)
    {
      PruneAsync(live);
      ghost var half := closed;
      PruneSync(live);
      ClosedInTurn(old(sync), sync, old(async), async, old(closed), half, closed, OnLoops(old(loops)), old(count));
    }

    /** Any sequence of gets and prunes. */
    method Run(calls: seq<Call>)
      requires Valid()
      modifies this`sync, this`async, this`loops, this`count, this`closed
      ensures Valid()
      ensures sync.channels.Keys == sync.stubs.Keys && async.channels.Keys == async.stubs.Keys
      ensures calls != [] && calls[|calls| - 1].DoPrune? ==>
                forall t | t in sync.stubs || t in async.stubs :: Alive(t, calls[|calls| - 1].live)
    {
      for i := 0 to |calls|
        invariant Valid()
        invariant i > 0 && calls[i - 1].DoPrune? ==>
                    forall t | t in sync.stubs || t in async.stubs :: Alive(t, calls[i - 1].live)
      {
        match calls[i]
        case DoGet(address, aio, running) => var s := Get(address, aio, running);
        case DoPrune(live) => Prune(live);
      }
    }
  }

  datatype Call = DoGet(address: string, aio: bool, running: Option<nat>) | DoPrune(live: set<string>)
}
