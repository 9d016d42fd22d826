/** `NodeIPMapping`: from node names to the IPs of the driver's pods, kept up to date by watch events. */
module NodeIndex {
  import opened Outcomes
  import opened StubCache

  /** A field that is missing or empty is None. */
  datatype Pod = Pod(name: string, node: Option<string>, ip: Option<string>, running: bool) {
    predicate Live() {
      running && node.Some? && ip.Some?
    }

    function Tracked(): Entry
      requires Live()
    {
      Entry(name, node.value, ip.value)
    }
  }

  datatype Op = Added | Modified | Deleted

  datatype Event = Event(op: Op, pod: Pod) {
    predicate Live() {
      !op.Deleted? && pod.Live()
    }
  }

  /** An insertion-ordered dictionary from pod names to nodes and IPs, as the sequence of its items. */
  datatype Entry = Entry(name: string, node: string, ip: string)
  type Entries = seq<Entry>

  ghost predicate Distinct(es: Entries) {
    forall i, j | 0 <= i < j < |es| :: es[i].name != es[j].name
  }

  predicate Has(es: Entries, name: string) {
    exists i | 0 <= i < |es| :: es[i].name == name
  }

  /** The position of a key, or the end. */
  ghost function Find(es: Entries, name: string): (k: nat)
    ensures k <= |es| && (k < |es| <==> Has(es, name))
    ensures k < |es| ==> es[k].name == name
  {
    if Has(es, name) then
      var k :| 0 <= k < |es| && es[k].name == name; k
    else
      |es|
  }

  /** Assign: an existing key keeps its position, a new one goes last. */
  ghost function Put(es: Entries, e: Entry): Entries {
    var k := Find(es, e.name);
    if k < |es| then es[k := e] else es + [e]
  }

  ghost function Pop(es: Entries, name: string): Entries {
    var k := Find(es, name);
    if k < |es| then seq(|es| - 1, i requires 0 <= i < |es| - 1 => es[if i < k then i else i + 1]) else es
  }

  ghost function Track(es: Entries, ev: Event): Entries {
    if ev.Live() then Put(es, ev.pod.Tracked()) else Pop(es, ev.pod.name)
  }

  /** The last entry of a node among the first n. */
  function LastOf(es: Entries, n: nat, node: string): Option<Entry>
    requires n <= |es|
  {
    if n == 0 then None else if es[n - 1].node == node then Some(es[n - 1]) else LastOf(es, n - 1, node)
  }

  function Last(es: Entries, node: string): Option<Entry> {
    LastOf(es, |es|, node)
  }

  // What a dictionary holds, without its order.

  ghost function Items(es: Entries): set<Entry> {
    set e | e in es
  }

  lemma PutItems(es: Entries, e: Entry)
    requires Distinct(es)
    ensures Distinct(Put(es, e))
    ensures forall x :: x in Put(es, e) <==> x == e || (x in es && x.name != e.name)
  {
    var k := Find(es, e.name);
    forall x | x in es && x.name != e.name ensures x in Put(es, e) {
      var i :| 0 <= i < |es| && es[i] == x;
      assert Put(es, e)[i] == x;
    }
    assert Put(es, e)[k] == e;
  }

  lemma PopDistinct(es: Entries, name: string)
    requires Distinct(es)
    ensures Distinct(Pop(es, name))
  {
  }

  lemma PopItems(es: Entries, name: string)
    requires Distinct(es)
    ensures forall x :: x in Pop(es, name) <==> x in es && x.name != name
  {
    var k, after := Find(es, name), Pop(es, name);
    if k < |es| {
      forall x | x in after ensures x in es && x.name != name {
        var i :| 0 <= i < |after| && after[i] == x;
        assert es[if i < k then i else i + 1] == x;
      }
      forall x | x in es && x.name != name ensures x in after {
        var i :| 0 <= i < |es| && es[i] == x;
        assert after[if i < k then i else i - 1] == x;
      }
    }
  }

  // The cluster, as the API server knows it.

  type Cluster = map<string, Pod>

  ghost predicate Named(c: Cluster) {
    forall n | n in c :: c[n].name == n
  }

  ghost function Happened(c: Cluster, ev: Event): Cluster {
    if ev.op.Deleted? then c - {ev.pod.name} else c[ev.pod.name := ev.pod]
  }

  /** The tracked pods are the running pods of the cluster that have a node and an IP. */
  ghost predicate Agrees(es: Entries, c: Cluster) {
    && Distinct(es)
    && forall e :: e in es <==> e.name in c && c[e.name].Live() && c[e.name].Tracked() == e
  }

  lemma TrackAgrees(es: Entries, c: Cluster, ev: Event)
    requires Agrees(es, c) && Named(c)
    ensures Agrees(Track(es, ev), Happened(c, ev)) && Named(Happened(c, ev))
  {
    if ev.Live() {
      PutItems(es, ev.pod.Tracked());
    } else {
      PopItems(es, ev.pod.name);
      PopDistinct(es, ev.pod.name);
    }
  }

  /** What a list of pods says of the cluster. */
  ghost function ClusterOf(pods: seq<Pod>): Cluster {
    if pods == [] then map[] else Happened(ClusterOf(pods[..|pods| - 1]), Event(Added, pods[|pods| - 1]))
  }

  /** Two ways to track the same cluster may order its pods differently, but track the same pods. */
  lemma SamePods(es: Entries, fs: Entries, c: Cluster)
    requires Agrees(es, c) && Agrees(fs, c)
    ensures Items(es) == Items(fs)
  {
    assert forall e :: e in es <==> e in fs;
  }

  // Age: when a pod was last seen to become live.

  type Ages = map<string, nat>

  ghost function Aged(ages: Ages, clock: nat, ev: Event): Ages {
    if !ev.Live() then ages - {ev.pod.name}
    else if ev.pod.name in ages then ages
    else ages[ev.pod.name := clock]
  }

  /** The order of the dictionary is the order of age. */
  ghost predicate ByAge(es: Entries, ages: Ages, clock: nat) {
    Sorted(es, ages, clock) && Covers(es, ages)
  }

  ghost predicate Sorted(es: Entries, ages: Ages, clock: nat) {
    && (forall i | 0 <= i < |es| :: es[i].name in ages && ages[es[i].name] < clock)
    && (forall i, j | 0 <= i < j < |es| :: ages[es[i].name] < ages[es[j].name])
  }

  ghost predicate Covers(es: Entries, ages: Ages) {
    forall n | n in ages :: Has(es, n)
  }

  lemma TrackKeepsAge(es: Entries, ages: Ages, clock: nat, ev: Event)
    requires ByAge(es, ages, clock)
    ensures ByAge(Track(es, ev), Aged(ages, clock, ev), clock + 1)
  {
    if ev.Live() {
      PutKeepsAge(es, ages, clock, ev.pod.Tracked());
    } else {
      PopKeepsAge(es, ages, clock, ev.pod.name);
    }
  }

  lemma PutKeepsAge(es: Entries, ages: Ages, clock: nat, e: Entry)
    requires ByAge(es, ages, clock)
    ensures ByAge(Put(es, e), if e.name in ages then ages else ages[e.name := clock], clock + 1)
  {
    PutSorted(es, ages, clock, e);
    var k, after := Find(es, e.name), Put(es, e);
    assert after[k].name == e.name;
    forall n | n in ages ensures Has(after, n) {
      var i :| 0 <= i < |es| && es[i].name == n;
      assert after[i].name == n;
    }
  }

  lemma PutSorted(es: Entries, ages: Ages, clock: nat, e: Entry)
    requires Sorted(es, ages, clock) && (e.name in ages ==> Has(es, e.name))
    ensures Sorted(Put(es, e), if e.name in ages then ages else ages[e.name := clock], clock + 1)
  {
  }

  lemma PopKeepsAge(es: Entries, ages: Ages, clock: nat, name: string)
    requires ByAge(es, ages, clock)
    ensures ByAge(Pop(es, name), ages - {name}, clock + 1)
  {
    PopSorted(es, ages, clock, name);
    var k, after := Find(es, name), Pop(es, name);
    forall n | n in ages - {name} ensures Has(after, n) {
      var i :| 0 <= i < |es| && es[i].name == n;
      if k < |es| {
        assert after[if i < k then i else i - 1].name == n;
      }
    }
  }

  lemma PopSorted(es: Entries, ages: Ages, clock: nat, name: string)
    requires Sorted(es, ages, clock)
    ensures Sorted(Pop(es, name), ages - {name}, clock + 1)
  {
  }

  /** The last entry of a node stands at k. */
  ghost predicate LastAt(es: Entries, n: nat, node: string, k: nat) {
    k < n <= |es| && es[k].node == node && forall j | k < j < n :: es[j].node != node
  }

  lemma {:induction false} LastIsAt(es: Entries, n: nat, node: string, k: nat)
    requires LastAt(es, n, node, k)
    ensures LastOf(es, n, node) == Some(es[k])
  {
    if k < n - 1 {
      LastIsAt(es, n - 1, node, k);
    }
  }

  /** Where a node's last entry stands; a node without one has no entry. */
  lemma {:induction false} LastPlace(es: Entries, n: nat, node: string) returns (k: nat)
    requires n <= |es|
    ensures if LastOf(es, n, node).Some? then LastAt(es, n, node, k) else forall j | 0 <= j < n :: es[j].node != node
  {
    k := 0;
    if n > 0 {
      if es[n - 1].node == node {
        k := n - 1;
      } else {
        k := LastPlace(es, n - 1, node);
      }
    }
  }

  lemma LastFound(es: Entries, e: Entry) returns (i: nat, k: nat)
    requires e in es
    ensures i <= k < |es| && es[i] == e && Last(es, e.node) == Some(es[k]) && es[k].node == e.node
  {
    i :| 0 <= i < |es| && es[i] == e;
    k := LastPlace(es, |es|, e.node);
    LastIsAt(es, |es|, e.node, k);
  }

  /** Of the pods on a node, the last one is the newest. */
  lemma NewestIsLast(es: Entries, ages: Ages, clock: nat, e: Entry)
    requires ByAge(es, ages, clock) && e in es
    ensures Last(es, e.node).Some?
    ensures var w := Last(es, e.node).value; w in es && w.node == e.node && ages[e.name] <= ages[w.name]
  {
    var i, k := LastFound(es, e);
  }

  lemma LastIsOne(es: Entries, node: string)
    requires Last(es, node).Some?
    ensures Last(es, node).value in es && Last(es, node).value.node == node
  {
    var k := LastPlace(es, |es|, node);
    LastIsAt(es, |es|, node, k);
  }

  lemma PopLastAt(es: Entries, name: string, node: string, k: nat)
    requires LastAt(es, |es|, node, k) && es[k].name != name && Has(es, name)
    ensures var k' := if k < Find(es, name) then k else k - 1;
            k' >= 0 && LastAt(Pop(es, name), |es| - 1, node, k') && Pop(es, name)[k'] == es[k]
  {
  }

  /** Removing a pod that is not the newest of a node never drops the newest. */
  lemma RemovingAnother(es: Entries, name: string, node: string)
    requires Last(es, node).Some? && Last(es, node).value.name != name
    ensures Last(Pop(es, name), node) == Last(es, node)
  {
    if Has(es, name) {
      var k := LastPlace(es, |es|, node);
      LastIsAt(es, |es|, node, k);
      PopLastAt(es, name, node, k);
      LastIsAt(Pop(es, name), |es| - 1, node, if k < Find(es, name) then k else k - 1);
    }
  }

  /** The published mapping: every node that has an entry, with the IP of its last one. */
  ghost predicate Mapped(mapping: map<string, string>, es: Entries) {
    MappedTo(mapping, es, |es|)
  }

  ghost predicate MappedTo(mapping: map<string, string>, es: Entries, n: nat)
    requires n <= |es|
  {
    forall node ::
      && (node in mapping <==> LastOf(es, n, node).Some?)
      && (node in mapping ==> mapping[node] == LastOf(es, n, node).value.ip)
  }

  /** The dictionary comprehension over the tracked pods: a later pod of a node overwrites an earlier one. */
  method Indexed(pods: Entries) returns (mapping: map<string, string>)
    ensures Mapped(mapping, pods)
  {
    mapping := map[];
    for i := 0 to |pods|
      invariant MappedTo(mapping, pods, i)
    {
      mapping := mapping[pods[i].node := pods[i].ip];
    }
  }

  /** A node is mapped exactly when it has a running pod with an IP. */
  lemma MappedIffLive(mapping: map<string, string>, es: Entries, c: Cluster, node: string)
    requires Mapped(mapping, es) && Agrees(es, c) && Named(c)
    ensures node in mapping <==> exists n | n in c :: c[n].running && c[n].ip.Some? && c[n].node == Some(node)
  {
    if node in mapping {
      LastIsOne(es, node);
      assert c[Last(es, node).value.name].Live();
    }
    if n :| n in c && c[n].running && c[n].ip.Some? && c[n].node == Some(node) {
      var e := c[n].Tracked();
      assert e in es;
      var i, k := LastFound(es, e);
    }
  }

  // Whether a fresh list would publish the same mapping.

  /** No node has two live pods with different IPs. */
  ghost predicate Unambiguous(c: Cluster) {
    forall n, m | n in c && m in c && c[n].Live() && c[m].Live() && c[n].node == c[m].node :: c[n].ip == c[m].ip
  }

  lemma SameMapping(es: Entries, fs: Entries, c: Cluster, m: map<string, string>, m': map<string, string>)
    requires Agrees(es, c) && Agrees(fs, c) && Named(c) && Mapped(m, es) && Mapped(m', fs) && Unambiguous(c)
    ensures m == m'
  {
    forall node
      ensures node in m <==> node in m'
      ensures node in m && node in m' ==> m[node] == m'[node]
    {
      MappedIffLive(m, es, c, node);
      MappedIffLive(m', fs, c, node);
      if node in m && node in m' {
        LastIsOne(es, node);
        LastIsOne(fs, node);
      }
    }
  }

  /** Otherwise it depends on the order: either of two pods of a node with different IPs may be the one published. */
  lemma OrderDecides(es: Entries, c: Cluster, e: Entry) returns (fs: Entries)
    requires Agrees(es, c) && e in es
    ensures Agrees(fs, c) && Last(fs, e.node) == Some(e)
  {
    PopItems(es, e.name);
    PopDistinct(es, e.name);
    fs := Pop(es, e.name) + [e];
    assert forall x | x in Pop(es, e.name) :: x.name != e.name;
    assert forall x | x in es && x.name == e.name :: x == e;
  }

  lemma MappingsMayDiffer(es: Entries, c: Cluster)
    requires Agrees(es, c) && Named(c) && !Unambiguous(c)
    ensures exists fs, gs, node ::
              Publishes(fs, c, node) && Publishes(gs, c, node) && Last(fs, node).value.ip != Last(gs, node).value.ip
  {
    var n, m :| n in c && m in c && c[n].Live() && c[m].Live() && c[n].node == c[m].node && c[n].ip != c[m].ip;
    var d, e := c[n].Tracked(), c[m].Tracked();
    assert d in es && e in es;
    var fs := OrderDecides(es, c, d);
    var gs := OrderDecides(es, c, e);
    assert Publishes(fs, c, d.node) && Publishes(gs, c, d.node);
  }

  ghost predicate Publishes(es: Entries, c: Cluster, node: string) {
    Agrees(es, c) && Last(es, node).Some?
  }

  /** What the API server answers to the watcher. */
  datatype Answer = Change(event: Event) | Bookmark | Failure(expired: bool) | Listing(pods: seq<Pod>)

  /** What the watcher was told: a list and the changes since, until a failure makes it list again. */
  datatype Told = Told(cluster: Cluster, listed: bool) {
    ghost function After(a: Answer): Told {
      match a
      case Change(ev) => if listed then Told(Happened(cluster, ev), true) else this
      case Bookmark => this
      case Failure(_) => Told(cluster, false)
      case Listing(pods) => if listed then this else Told(ClusterOf(pods), true)
    }

    ghost function AfterAll(answers: seq<Answer>): Told {
      if answers == [] then this else AfterAll(answers[..|answers| - 1]).After(answers[|answers| - 1])
    }
  }

  const MAX_BACKOFF := 30

  function Doubled(backoff: nat): nat {
    if 2 * backoff < MAX_BACKOFF then 2 * backoff else MAX_BACKOFF
  }

  /** Every wait is one second, or twice the one before, up to the limit. */
  ghost predicate Paced(waits: seq<nat>) {
    waits != [] ==>
      var last := waits[|waits| - 1];
      && Paced(waits[..|waits| - 1]) && 1 <= last <= 30
      && (last == 1 || (|waits| > 1 && (last == 2 * waits[|waits| - 2] || (last == 30 < 2 * waits[|waits| - 2]))))
  }

  /** One more wait, if the next one may be `backoff`. */
  lemma {:induction false} PacedMore(waits: seq<nat>, backoff: nat)
    requires Paced(waits + [backoff])
    ensures Paced(waits) && Paced(waits + [1]) && Paced(waits + [backoff] + [Doubled(backoff)])
  {
    var more := waits + [backoff];
    assert more[..|more| - 1] == waits && (waits + [1])[..|waits|] == waits;
    assert (more + [Doubled(backoff)])[..|more|] == more;
  }

  /** The failures that the watcher waits after; an expired version is no reason to. */
  ghost function Failures(answers: seq<Answer>): nat {
    if answers == [] then 0
    else Failures(answers[..|answers| - 1]) + if answers[|answers| - 1] == Failure(false) then 1 else 0
  }

  class NodeIPMapping {
    var pods: Entries
    var mapping: map<string, string>
    /** There is a resource version to watch from. */
    var listed: bool
    ghost var told: Told
    ghost var ages: Ages
    ghost var clock: nat

    ghost predicate Tracking()
      reads this
    {
      && Agrees(pods, told.cluster) && Named(told.cluster)
      && ByAge(pods, ages, clock)
    }

    ghost predicate Valid()
      reads this
    {
      Tracking() && Mapped(mapping, pods) && listed == told.listed
    }

    constructor ()
      ensures Valid() && told == Told(map[], false)
    {
      pods, mapping, listed, told, ages, clock := [], map[], false, Told(map[], false), map[], 0;
    }

    method FindPod(name: string) returns (k: nat)
      requires Distinct(pods)
      ensures k == Find(pods, name)
    {
      k := 0;
      while k < |pods| && pods[k].name != name
        invariant k <= |pods| && forall i | 0 <= i < k :: pods[i].name != name
      {
        k := k + 1;
      }
    }

    method Assign(e: Entry)
      requires Distinct(pods)
      modifies this`pods
      ensures pods == Put(old(pods), e)
    {
      var k := FindPod(e.name);
      pods := if k < |pods| then pods[k := e] else pods + [e];
    }

    method Discard(name: string)
      requires Distinct(pods)
      modifies this`pods
      ensures pods == Pop(old(pods), name)
    {
      var k := FindPod(name);
      if k < |pods| {
        assert Pop(pods, name) == pods[..k] + pods[k + 1..];
        pods := pods[..k] + pods[k + 1..];
      }
    }

    /** _track */
    method TrackPod(ev: Event)
      requires Tracking()
      modifies this`pods, this`told, this`ages, this`clock
      ensures Tracking()
      ensures pods == Track(old(pods), ev)
      ensures told == old(told).(cluster := Happened(old(told).cluster, ev))
      ensures ages == Aged(old(ages), old(clock), ev) && clock == old(clock) + 1
    {
      TrackAgrees(pods, told.cluster, ev);
      TrackKeepsAge(pods, ages, clock, ev);
      if !ev.op.Deleted? && ev.pod.running && ev.pod.node.Some? && ev.pod.ip.Some? {
        Assign(Entry(ev.pod.name, ev.pod.node.value, ev.pod.ip.value));
      } else {
        Discard(ev.pod.name);
      }
      told := told.(cluster := Happened(told.cluster, ev));
      ages, clock := Aged(ages, clock, ev), clock + 1;
    }

    /** _publish */
    method Publish()
      requires Tracking() && listed == told.listed
      modifies this`mapping
      ensures Valid()
    {
      mapping := Indexed(pods);
    }

    /** reload_mapping */
    method Reload(listing: seq<Pod>)
      requires Valid()
      modifies this
      ensures Valid() && told == Told(ClusterOf(listing), true)
    {
      pods, listed, told, ages := [], true, Told(map[], true), map[];
      for i := 0 to |listing|
        invariant Tracking() && listed && told == Told(ClusterOf(listing[..i]), true)
      {
        assert listing[..i + 1][..i] == listing[..i];
        TrackPod(Event(Added, listing[i]));
      }
      assert listing[..|listing|] == listing;
      Publish();
    }

    /** One watch event: afterwards no stub is cached for an address that no node has. */
    method OnChange(ev: Event, cache: Cache)
      requires Valid() && cache.Valid()
      modifies this, cache`sync, cache`async, cache`loops, cache`closed
      ensures Valid() && cache.Valid()
      ensures told == old(told).(cluster := Happened(old(told).cluster, ev))
      ensures forall t | t in cache.sync.stubs || t in cache.async.stubs :: cache.Alive(t, mapping.Values)
    {
      TrackPod(ev);
      Publish();
      cache.Prune(mapping.Values);
    }

    /** One answer in the watch loop. */
    method Handle(a: Answer, cache: Cache, backoff: nat) returns (waited: Option<nat>, next: nat)
      requires Valid() && cache.Valid()
      modifies this, cache`sync, cache`async, cache`loops, cache`closed
      ensures Valid() && cache.Valid() && told == old(told).After(a)
      ensures waited == if a == Failure(false) then Some(backoff) else None
      ensures a.Change? && old(told).listed ==> next == 1
      ensures a == Failure(false) ==> next == if 2 * backoff < 30 then 2 * backoff else 30
      ensures a != Failure(false) && !(a.Change? && old(told).listed) ==> next == backoff
    {
      waited, next := None, backoff;
      match a
      case Change(ev) =>
        if listed {
          OnChange(ev, cache);
          next := 1;
        }
      case Bookmark =>
      case Failure(expired) =>
        listed, told := false, told.(listed := false);
        if !expired {
          waited, next := Some(backoff), Doubled(backoff);
        }
      case Listing(pods) =>
        if !listed {
          Reload(pods);
        }
    }

    /** watch_daemonset_pods, for any answers of the API server: what is tracked is always what the last list and the
        changes since say; it waits after each failure but an expired version, a second or twice as long as the last
        time, and never longer than half a minute. */
    method Watch(answers: seq<Answer>, cache: Cache) returns (waits: seq<nat>)
      requires Valid() && told.listed && cache.Valid()
      modifies this, cache`sync, cache`async, cache`loops, cache`closed
      ensures Valid() && cache.Valid()
      ensures told == old(told).AfterAll(answers)
      ensures |waits| == Failures(answers) && Paced(waits)
    {
      var backoff, waited := 1, None;
      waits := [];
      for i := 0 to |answers|
        invariant Valid() && cache.Valid()
        invariant told == old(told).AfterAll(answers[..i])
        invariant |waits| == Failures(answers[..i]) && Paced(waits + [backoff])
      {
        assert answers[..i + 1][..i] == answers[..i];
        PacedMore(waits, backoff);
        waited, backoff := Handle(answers[i], cache, backoff);
        waits := if waited.Some? then waits + [waited.value] else waits;
      }
      assert answers[..|answers|] == answers;
      PacedMore(waits, backoff);
    }

    /** get_node_ip: a node that has a live pod gets the IP of its newest one; any other is unavailable. */
    method GetNodeIp(node: string) returns (ip: Option<string>)
      requires Valid()
      ensures ip.Some? <==>
              exists n | n in told.cluster ::
                told.cluster[n].running && told.cluster[n].ip.Some? && told.cluster[n].node == Some(node)
      ensures ip.Some? ==>
                exists n | n in ages ::
                  && n in told.cluster && told.cluster[n].running
                  && told.cluster[n].node == Some(node) && told.cluster[n].ip == ip
                  && Newest(told.cluster, ages, n)
    {
      MappedIffLive(mapping, pods, told.cluster, node);
      if node in mapping {
        ip := Some(mapping[node]);
        LastIsOne(pods, node);
        ghost var w := Last(pods, node).value;
        NewestOfNode(pods, told.cluster, ages, clock, w);
      } else {
        ip := None;
      }
    }
  }

  /** No live pod on the same node became live later. */
  ghost predicate Newest(c: Cluster, ages: Ages, n: string)
    requires n in c && n in ages
  {
    forall m | m in c && c[m].Live() && c[m].node == c[n].node :: m in ages && ages[m] <= ages[n]
  }

  lemma NewestOfNode(es: Entries, c: Cluster, ages: Ages, clock: nat, w: Entry)
    requires Agrees(es, c) && Named(c) && ByAge(es, ages, clock) && w in es && Last(es, w.node) == Some(w)
    ensures w.name in c && w.name in ages && Newest(c, ages, w.name)
  {
    forall m | m in c && c[m].Live() && c[m].node == Some(w.node)
      ensures m in ages && ages[m] <= ages[w.name]
    {
      var e := c[m].Tracked();
      assert e in es;
      NewestIsLast(es, ages, clock, e);
    }
  }
}
