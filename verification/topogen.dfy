/** The topology walk of the physical topology generator (system/toponet.py, class
    TopoGen): a breadth-first walk from the hosts of the host data sources through the
    links the network data sources know, recording hosts, switches and links. */
module TopoWalk {
  import opened Toponet

  /** A loaded data source: its elements in the order it lists them and the links of each
      element it knows (`hasElement`, `getElementList`, `getElementLinks`). */
  datatype Source = Source(order: seq<string>, links: map<string, seq<Link>>)

  /** Every element a source lists has links to give. */
  predicate SourceOk(ds: Source)
  {
    forall e :: e in ds.order ==> e in ds.links
  }

  /** The elements a set of network sources knows. */
  function NetElems(ns: seq<Source>): set<string>
  {
    set ds, e | ds in ns && e in ds.links :: e
  }

  /** The host elements, source after source, in each source's order. */
  function HostList(hs: seq<Source>): seq<string>
  {
    if hs == [] then [] else HostList(hs[..|hs| - 1]) + hs[|hs| - 1].order
  }

  /** The links of `ls` whose far end is not in `visited`, in order. */
  function FreshLinks(ls: seq<Link>, visited: set<string>): (r: seq<Link>)
    ensures forall l :: l in r <==> l in ls && l.dst !in visited
  {
    if ls == [] then []
    else FreshLinks(ls[..|ls| - 1], visited) + (if ls[|ls| - 1].dst in visited then [] else [ls[|ls| - 1]])
  }

  /** The network sources that know `dst`, in order, each paired with `dst`. */
  function Knowers(dst: string, ns: seq<Source>): (r: seq<(string, Source)>)
    ensures forall p :: p in r <==> p.0 == dst && p.1 in ns && dst in p.1.links
    ensures |r| <= |ns|
    ensures Distinct(ns) ==> Distinct(r)
  {
    if ns == [] then []
    else
      var r0 := Knowers(dst, ns[..|ns| - 1]);
      assert forall p :: p in r0 ==> p.1 in ns[..|ns| - 1];
      r0 + (if dst in ns[|ns| - 1].links then [(dst, ns[|ns| - 1])] else [])
  }

  /** The queue entries a run of recorded links gives: for each link in order, its far end
      with every network source that knows it. */
  function Enqueued(ls: seq<Link>, ns: seq<Source>): (r: seq<(string, Source)>)
    ensures forall p :: p in r <==> (exists l :: l in ls && l.dst == p.0) && p.1 in ns && p.0 in p.1.links
  {
    if ls == [] then []
    else
      var r := Enqueued(ls[..|ls| - 1], ns) + Knowers(ls[|ls| - 1].dst, ns);
      assert forall l :: l in ls ==> l in ls[..|ls| - 1] || l == ls[|ls| - 1];
      assert forall l :: l in ls[..|ls| - 1] ==> l in ls;
      r
  }

  /** The queue entries one far end gives: one per network source that has it, in the
      sources' order, so each source once when the sources form a set. */
  method EnqueueDst(dst: string, ns: seq<Source>) returns (pushed: seq<(string, Source)>)
    ensures pushed == Knowers(dst, ns)
    ensures forall p :: p in pushed ==> p.0 == dst && p.1 in ns && dst in p.1.links
    ensures forall k :: 0 <= k < |ns| && dst in ns[k].links ==> (dst, ns[k]) in pushed
    ensures Distinct(ns) ==> Distinct(pushed)
  {
    pushed := [];
    for k := 0 to |ns|
      invariant pushed == Knowers(dst, ns[..k])
    {
      assert ns[..k + 1][..k] == ns[..k];
      if dst in ns[k].links {
        pushed := pushed + [(dst, ns[k])];
      }
    }
    assert ns[..|ns|] == ns;
  }

  /** The links of one element: each whose far end is not yet visited is recorded, and
      its far end queued with every network source that has it. */
  method ExpandLinks(elemLinks: seq<Link>, visited: set<string>, ns: seq<Source>)
    returns (added: seq<Link>, pushed: seq<(string, Source)>)
    ensures added == FreshLinks(elemLinks, visited)
    ensures pushed == Enqueued(added, ns)
    ensures forall p :: p in pushed ==> p.1 in ns && p.0 in p.1.links && p.0 !in visited
    ensures forall l, k :: l in added && 0 <= k < |ns| && l.dst in ns[k].links ==> (l.dst, ns[k]) in pushed
  {
    added := [];
    pushed := [];
    for i := 0 to |elemLinks|
      invariant added == FreshLinks(elemLinks[..i], visited)
      invariant pushed == Enqueued(added, ns)
      invariant forall p :: p in pushed ==> p.1 in ns && p.0 in p.1.links && p.0 !in visited
      invariant forall l, k :: l in added && 0 <= k < |ns| && l.dst in ns[k].links ==> (l.dst, ns[k]) in pushed
    {
      var link := elemLinks[i];
      assert elemLinks[..i + 1][..i] == elemLinks[..i];
      if link.dst !in visited {
        assert (added + [link])[..|added|] == added;
        added := added + [link];
        var more := EnqueueDst(link.dst, ns);
        pushed := pushed + more;
      }
    }
    assert elemLinks[..|elemLinks|] == elemLinks;
  }

  /** The topology generator: its data sources and the hosts, switches and links of the
      last walk. `expanded` and `linkFrom` record, for the proof, the elements in the order
      they were expanded and which expansion recorded each link. */
  class TopoGen {
    var hostSources: seq<Source>
    var netSources: seq<Source>
    var links: seq<Link>
    var hosts: seq<string>
    var switches: seq<string>
    ghost var expanded: seq<string>
    ghost var expandedFrom: seq<Source>
    ghost var linkFrom: seq<nat>

    constructor()
      ensures hostSources == [] && netSources == [] && links == [] && hosts == [] && switches == []
    {
      hostSources := [];
      netSources := [];
      links := [];
      hosts := [];
      switches := [];
      expanded := [];
      expandedFrom := [];
      linkFrom := [];
    }

    /** `setHostLoader(ds)`: the host sources form a set. */
    method SetHostLoader(ds: Source)
      modifies this
      ensures hostSources == if ds in old(hostSources) then old(hostSources) else old(hostSources) + [ds]
      ensures netSources == old(netSources)
    {
      if ds !in hostSources {
        hostSources := hostSources + [ds];
      }
    }

    /** `setNetLoader(ds)`: the network sources form a set. */
    method SetNetLoader(ds: Source)
      modifies this
      ensures netSources == if ds in old(netSources) then old(netSources) else old(netSources) + [ds]
      ensures hostSources == old(hostSources)
    {
      if ds !in netSources {
        netSources := netSources + [ds];
      }
    }

    /** The first step of `topogen`: every host of every host source is queued with its
        source and listed as a host. */
    method QueueHosts() returns (queue: seq<(string, Source)>)
      requires forall k :: 0 <= k < |hostSources| ==> SourceOk(hostSources[k])
      modifies this
      ensures hosts == HostList(hostSources)
      ensures QueueOk(queue, hosts, netSources)
      ensures forall h :: h in hosts ==> h in QueueElems(queue)
      ensures forall q :: q in queue ==> q.0 in hosts
      ensures hostSources == old(hostSources) && netSources == old(netSources)
      ensures links == old(links) && switches == old(switches)
      ensures expanded == old(expanded) && expandedFrom == old(expandedFrom) && linkFrom == old(linkFrom)
    {
      var hostList := [];
      queue := [];
      for k := 0 to |hostSources|
        invariant hostList == HostList(hostSources[..k])
        invariant QueueOk(queue, hostList, netSources)
        invariant forall h :: h in hostList ==> h in QueueElems(queue)
        invariant forall q :: q in queue ==> q.0 in hostList
      {
        var hs := hostSources[k];
        assert hostSources[..k + 1][..k] == hostSources[..k];
        ghost var before := hostList;
        for j := 0 to |hs.order|
          invariant hostList == before + hs.order[..j]
          invariant QueueOk(queue, hostList, netSources)
          invariant forall h :: h in hostList ==> h in QueueElems(queue)
          invariant forall q :: q in queue ==> q.0 in hostList
        {
          assert hs.order[j] in hs.order;
          queue := queue + [(hs.order[j], hs)];
          hostList := hostList + [hs.order[j]];
          assert before + hs.order[..j + 1] == before + hs.order[..j] + [hs.order[j]];
        }
        assert hs.order[..|hs.order|] == hs.order;
      }
      assert hostSources[..|hostSources|] == hostSources;
      hosts := hostList;
    }

    /** `topogen()`: a breadth-first walk from the hosts. Each element is expanded at most
        once; an element that is not a host is recorded as a switch; a link is recorded
        only when its far end was not yet visited, and its far end is then queued with
        each network source that knows it. Every host is expanded, and the walk is closed:
        the far end of every link of an expanded element is expanded when a network
        source knows it. Every element expanded that is not a host was reached: it is the far
        end of a link recorded while expanding an earlier element. */
    method Topogen()
      requires forall k :: 0 <= k < |hostSources| ==> SourceOk(hostSources[k])
      modifies this
      ensures hostSources == old(hostSources) && netSources == old(netSources)
      ensures hosts == HostList(hostSources)
      ensures Distinct(expanded)
      ensures forall h :: h in hosts ==> h in expanded
      ensures SwitchesOk(switches, expanded, hosts)
      ensures forall e :: e in expanded ==> e in hosts || e in NetElems(netSources)
      ensures LinksFrom(links, linkFrom, expanded, expandedFrom)
      ensures switches == NonHosts(expanded, hosts) && links == AllFresh(expanded, expandedFrom)
      ensures Closed(expanded, expandedFrom, netSources, set e | e in expanded, [])
      ensures Reachable(expanded, expandedFrom, Members(hosts))
    {
      var queue := QueueHosts();
      var switchList, linkList, ex, exFrom, from := WalkFrom(hosts, netSources, queue);
      switches := switchList;
      links := linkList;
      expanded := ex;
      expandedFrom := exFrom;
      linkFrom := from;
    }
  }

  /** The loop of `topogen()` from the queued hosts: pop an element; skip it when visited;
      otherwise record it as a switch unless it is a host, record each of its links whose
      far end is not yet visited and queue that far end with every network source that
      knows it, and mark it visited. */
  method WalkFrom(hosts: seq<string>, ns: seq<Source>, queue0: seq<(string, Source)>)
    returns (switchList: seq<string>, linkList: seq<Link>, ex: seq<string>, exFrom: seq<Source>, ghost from: seq<nat>)
    requires QueueOk(queue0, hosts, ns)
    requires forall h :: h in hosts ==> h in QueueElems(queue0)
    ensures Distinct(ex)
    ensures forall h :: h in hosts ==> h in ex
    ensures SwitchesOk(switchList, ex, hosts)
    ensures forall e :: e in ex ==> e in hosts || e in NetElems(ns)
    ensures LinksFrom(linkList, from, ex, exFrom)
    ensures switchList == NonHosts(ex, hosts) && linkList == AllFresh(ex, exFrom)
    ensures Closed(ex, exFrom, ns, set e | e in ex, [])
    ensures Reachable(ex, exFrom, QueueElems(queue0))
    ensures (forall q :: q in queue0 ==> q.0 in hosts) ==> Reachable(ex, exFrom, Members(hosts))
  {
    var queue := queue0;
    switchList := [];
    linkList := [];
    ex := [];
    exFrom := [];
    from := [];
    var visited: set<string> := {};
    ghost var U := (set h | h in hosts) + NetElems(ns);
    ghost var seeds := QueueElems(queue0);
    while |queue| > 0
      invariant Walk(hosts, ns, queue, visited, ex, exFrom, from, switchList, linkList)
      invariant QueueFrom(queue, seeds, linkList) && Reachable(ex, exFrom, seeds)
      decreases U - visited, |queue|
    {
      WalkHead(hosts, ns, queue, visited, ex, exFrom, from, switchList, linkList);
      var (elem, ds) := queue[0];
      if elem in visited {
        WalkSkip(hosts, ns, queue, visited, ex, exFrom, from, switchList, linkList);
        QueueFromPop(queue, seeds, linkList);
        queue := queue[1..];
      } else {
        var added, pushed := ExpandLinks(ds.links[elem], visited, ns);
        WalkExpand(hosts, ns, queue, visited, ex, exFrom, from, switchList, linkList, added, pushed);
        ReachExpand(queue, seeds, ex, exFrom, linkList, ns, added, pushed);
        if elem !in hosts {
          switchList := switchList + [elem];
        }
        from := from + Repeat(|added|, |ex|);
        linkList := linkList + added;
        queue := queue[1..] + pushed;
        ex := ex + [elem];
        exFrom := exFrom + [ds];
        visited := visited + {elem};
      }
    }
    WalkDone(hosts, ns, visited, ex, exFrom, from, switchList, linkList);
    if forall q :: q in queue0 ==> q.0 in hosts {
      ReachableSeeds(ex, exFrom, queue0, hosts);
    }
  }

  // ---- the walk's invariants ------------------------------------------------------------------

  predicate Distinct<T(==)>(s: seq<T>)
  {
    forall i, j :: 0 <= i < j < |s| ==> s[i] != s[j]
  }

  /** The expanded elements that are not hosts, in the order they were expanded. */
  function NonHosts(expanded: seq<string>, hosts: seq<string>): (r: seq<string>)
    ensures forall e :: e in r <==> e in expanded && e !in hosts
    ensures Distinct(expanded) ==> Distinct(r)
  {
    if expanded == [] then []
    else
      var r0 := NonHosts(expanded[..|expanded| - 1], hosts);
      var e := expanded[|expanded| - 1];
      assert forall x :: x in expanded <==> x in expanded[..|expanded| - 1] || x == e;
      r0 + (if e in hosts then [] else [e])
  }

  /** The links recorded by expanding `expanded[k]` from `expandedFrom[k]`, for each k in
      turn: that element's links whose far end is not among the elements expanded before. */
  function AllFresh(expanded: seq<string>, expandedFrom: seq<Source>): seq<Link>
    requires |expandedFrom| == |expanded|
  {
    if expanded == [] then []
    else
      var n := |expanded| - 1;
      AllFresh(expanded[..n], expandedFrom[..n]) +
        (if expanded[n] in expandedFrom[n].links
         then FreshLinks(expandedFrom[n].links[expanded[n]], set e | e in expanded[..n])
         else [])
  }

  /** `n` copies of `v`. */
  function Repeat(n: nat, v: nat): (r: seq<nat>)
    ensures |r| == n && forall k :: 0 <= k < n ==> r[k] == v
  {
    if n == 0 then [] else Repeat(n - 1, v) + [v]
  }

  /** The elements waiting in a queue. */
  function QueueElems(queue: seq<(string, Source)>): set<string>
  {
    set q | q in queue :: q.0
  }

  /** Every queued element is known to the source it was queued with, and is a host or
      an element of a network source. */
  ghost predicate QueueOk(queue: seq<(string, Source)>, hosts: seq<string>, ns: seq<Source>)
  {
    forall q :: q in queue ==> q.0 in q.1.links && (q.0 in hosts || q.0 in NetElems(ns))
  }

  /** The switches are the expanded elements that are not hosts, each once. */
  ghost predicate SwitchesOk(switches: seq<string>, expanded: seq<string>, hosts: seq<string>)
  {
    Distinct(switches) && forall e :: e in switches <==> e in expanded && e !in hosts
  }

  /** Link `k` was recorded while expanding element `linkFrom[k]`: it is one of that
      element's links, and its far end had not been expanded before. */
  ghost predicate LinksFrom(links: seq<Link>, linkFrom: seq<nat>, expanded: seq<string>, expandedFrom: seq<Source>)
  {
    |expandedFrom| == |expanded| && |linkFrom| == |links| &&
    (forall k :: 0 <= k < |expanded| ==> expanded[k] in expandedFrom[k].links) &&
    forall k :: 0 <= k < |links| ==>
      linkFrom[k] < |expanded| &&
      links[k] in expandedFrom[linkFrom[k]].links[expanded[linkFrom[k]]] &&
      links[k].dst !in expanded[..linkFrom[k]]
  }

  /** Every far end of a link of an expanded element that a network source knows is
      visited or waiting in the queue. */
  ghost predicate Closed(expanded: seq<string>, expandedFrom: seq<Source>, ns: seq<Source>,
                   visited: set<string>, queue: seq<(string, Source)>)
  {
    |expandedFrom| == |expanded| &&
    forall k, l ::
      (0 <= k < |expanded| && expanded[k] in expandedFrom[k].links &&
       l in expandedFrom[k].links[expanded[k]] && l.dst in NetElems(ns)) ==>
        l.dst in visited || l.dst in QueueElems(queue)
  }

  /** All the invariants of the walk at once. */
  ghost predicate Walk(hosts: seq<string>, ns: seq<Source>, queue: seq<(string, Source)>, visited: set<string>,
                       ex: seq<string>, exFrom: seq<Source>, from: seq<nat>, switchList: seq<string>, linkList: seq<Link>)
  {
    QueueOk(queue, hosts, ns) &&
    visited == (set e | e in ex) &&
    Distinct(ex) &&
    (forall h :: h in hosts ==> h in visited || h in QueueElems(queue)) &&
    switchList == NonHosts(ex, hosts) &&
    (forall e :: e in ex ==> e in hosts || e in NetElems(ns)) &&
    LinksFrom(linkList, from, ex, exFrom) &&
    linkList == AllFresh(ex, exFrom) &&
    Closed(ex, exFrom, ns, visited, queue)
  }

  /** The strings listed in `s`. */
  function Members(s: seq<string>): (r: set<string>)
    ensures forall x :: x in r <==> x in s
  {
    set x | x in s
  }

  /** The far ends of the links `ls`. */
  function Dsts(ls: seq<Link>): (r: set<string>)
    ensures forall l :: l in ls ==> l.dst in r
  {
    set l | l in ls :: l.dst
  }

  /** Every queued element is a seed or the far end of a recorded link. */
  ghost predicate QueueFrom(queue: seq<(string, Source)>, seeds: set<string>, links: seq<Link>)
  {
    forall q :: q in queue ==> q.0 in seeds || q.0 in Dsts(links)
  }

  /** Every expanded element is a seed or the far end of a link recorded while expanding an
      element before it. */
  ghost predicate Reachable(expanded: seq<string>, expandedFrom: seq<Source>, seeds: set<string>)
  {
    |expandedFrom| == |expanded| &&
    forall k :: 0 <= k < |expanded| ==> ReachedAt(expanded, expandedFrom, seeds, k)
  }

  /** The k-th element expanded is a seed or the far end of a link recorded before it. */
  ghost predicate ReachedAt(expanded: seq<string>, expandedFrom: seq<Source>, seeds: set<string>, k: nat)
    requires k < |expanded| == |expandedFrom|
  {
    expanded[k] in seeds || expanded[k] in Dsts(AllFresh(expanded[..k], expandedFrom[..k]))
  }

  /** Popping the head keeps every queued element a seed or a recorded far end. */
  lemma QueueFromPop(queue: seq<(string, Source)>, seeds: set<string>, links: seq<Link>)
    requires |queue| > 0 && QueueFrom(queue, seeds, links)
    ensures QueueFrom(queue[1..], seeds, links)
  {
    assert forall q :: q in queue[1..] ==> q in queue;
  }

  /** Expanding the head of the queue: the far ends it queues are those of the links it
      records, and it was itself a seed or the far end of a link recorded before. */
  lemma ReachExpand(queue: seq<(string, Source)>, seeds: set<string>, ex: seq<string>, exFrom: seq<Source>,
                    links: seq<Link>, ns: seq<Source>, added: seq<Link>, pushed: seq<(string, Source)>)
    requires |queue| > 0 && QueueFrom(queue, seeds, links) && Reachable(ex, exFrom, seeds)
    requires links == AllFresh(ex, exFrom) && pushed == Enqueued(added, ns)
    ensures QueueFrom(queue[1..] + pushed, seeds, links + added)
    ensures Reachable(ex + [queue[0].0], exFrom + [queue[0].1], seeds)
  {
    var ex', exFrom' := ex + [queue[0].0], exFrom + [queue[0].1];
    assert queue[0] in queue;
    forall k | 0 <= k < |ex'|
      ensures ReachedAt(ex', exFrom', seeds, k)
    {
      assert ex'[..k] == ex[..k] && exFrom'[..k] == exFrom[..k];
      if k < |ex| {
        assert ReachedAt(ex, exFrom, seeds, k);
      }
    }
    forall q | q in queue[1..] + pushed
      ensures q.0 in seeds || q.0 in Dsts(links + added)
    {
      if q in pushed {
        var l :| l in added && l.dst == q.0;
        assert l in links + added;
      } else {
        assert q in queue;
        if q.0 !in seeds {
          var l :| l in links && l.dst == q.0;
          assert l in links + added;
        }
      }
    }
  }

  /** When every element first queued is a host, the hosts can stand for the seeds. */
  lemma ReachableSeeds(ex: seq<string>, exFrom: seq<Source>, queue: seq<(string, Source)>, hosts: seq<string>)
    requires Reachable(ex, exFrom, QueueElems(queue)) && forall q :: q in queue ==> q.0 in hosts
    ensures Reachable(ex, exFrom, Members(hosts))
  {
    forall k | 0 <= k < |ex| ensures ReachedAt(ex, exFrom, Members(hosts), k) {
      assert ReachedAt(ex, exFrom, QueueElems(queue), k);
      if ex[k] in QueueElems(queue) {
        var q :| q in queue && q.0 == ex[k];
      }
    }
  }

  /** A walk that expands a switch no recorded link leads to is not reachable: here the
      host's source gives it no links, yet the network element "a" is expanded. */
  lemma UnreachedSwitchRefused()
    ensures !Reachable(["h", "a"], [Source(["h"], map["h" := []]), Source(["a"], map["a" := []])], Members(["h"]))
  {
    var ex, exFrom := ["h", "a"], [Source(["h"], map["h" := []]), Source(["a"], map["a" := []])];
    assert ex[..1] == ["h"] && exFrom[..1] == [exFrom[0]];
    assert AllFresh(ex[..1], exFrom[..1]) == [];
    assert !ReachedAt(ex, exFrom, Members(["h"]), 1);
  }

  lemma WalkHead(hosts: seq<string>, ns: seq<Source>, queue: seq<(string, Source)>, visited: set<string>,
                 ex: seq<string>, exFrom: seq<Source>, from: seq<nat>, switchList: seq<string>, linkList: seq<Link>)
    requires Walk(hosts, ns, queue, visited, ex, exFrom, from, switchList, linkList) && |queue| > 0
    ensures queue[0].0 in queue[0].1.links
    ensures queue[0].0 in hosts || queue[0].0 in NetElems(ns)
  {
    assert queue[0] in queue;
  }

  /** Popping an element already visited keeps the invariants. */
  lemma WalkSkip(hosts: seq<string>, ns: seq<Source>, queue: seq<(string, Source)>, visited: set<string>,
                 ex: seq<string>, exFrom: seq<Source>, from: seq<nat>, switchList: seq<string>, linkList: seq<Link>)
    requires Walk(hosts, ns, queue, visited, ex, exFrom, from, switchList, linkList)
    requires |queue| > 0 && queue[0].0 in visited
    ensures Walk(hosts, ns, queue[1..], visited, ex, exFrom, from, switchList, linkList)
  {
    PopQueue(queue, hosts, ns);
    ClosedSkip(ex, exFrom, ns, visited, queue);
  }

  /** Expanding a popped element that was not yet visited keeps the invariants. */
  lemma WalkExpand(hosts: seq<string>, ns: seq<Source>, queue: seq<(string, Source)>, visited: set<string>,
                   ex: seq<string>, exFrom: seq<Source>, from: seq<nat>, switchList: seq<string>, linkList: seq<Link>,
                   added: seq<Link>, pushed: seq<(string, Source)>)
    requires Walk(hosts, ns, queue, visited, ex, exFrom, from, switchList, linkList)
    requires |queue| > 0 && queue[0].0 !in visited && queue[0].0 in queue[0].1.links
    requires added == FreshLinks(queue[0].1.links[queue[0].0], visited)
    requires forall p :: p in pushed ==> p.1 in ns && p.0 in p.1.links && p.0 !in visited
    requires forall l, k :: l in added && 0 <= k < |ns| && l.dst in ns[k].links ==> (l.dst, ns[k]) in pushed
    ensures Walk(hosts, ns, queue[1..] + pushed, visited + {queue[0].0}, ex + [queue[0].0], exFrom + [queue[0].1],
                 from + Repeat(|added|, |ex|),
                 if queue[0].0 in hosts then switchList else switchList + [queue[0].0], linkList + added)
  {
    var (elem, ds) := queue[0];
    var queue' := queue[1..] + pushed;
    PopQueue(queue, hosts, ns);
    QueueOkAppend(queue[1..], pushed, hosts, ns);
    assert queue[0] in queue;
    assert NonHosts(ex + [elem], hosts) == (if elem in hosts then switchList else switchList + [elem])
        && Distinct(ex + [elem]) by {
      SwitchesStep(ex, hosts, elem);
    }
    assert LinksFrom(linkList + added, from + Repeat(|added|, |ex|), ex + [elem], exFrom + [ds])
        && AllFresh(ex + [elem], exFrom + [ds]) == linkList + added by {
      LinksStep(linkList, from, ex, exFrom, elem, ds, added);
    }
    assert Closed(ex + [elem], exFrom + [ds], ns, visited + {elem}, queue') by {
      ClosedStep(ex, exFrom, ns, visited, queue, elem, ds, added, pushed);
    }
  }

  /** With the queue empty every host has been expanded and the walk is closed. */
  lemma WalkDone(hosts: seq<string>, ns: seq<Source>, visited: set<string>,
                 ex: seq<string>, exFrom: seq<Source>, from: seq<nat>, switchList: seq<string>, linkList: seq<Link>)
    requires Walk(hosts, ns, [], visited, ex, exFrom, from, switchList, linkList)
    ensures Distinct(ex)
    ensures switchList == NonHosts(ex, hosts) && linkList == AllFresh(ex, exFrom)
    ensures forall h :: h in hosts ==> h in ex
    ensures SwitchesOk(switchList, ex, hosts)
    ensures forall e :: e in ex ==> e in hosts || e in NetElems(ns)
    ensures LinksFrom(linkList, from, ex, exFrom)
    ensures Closed(ex, exFrom, ns, set e | e in ex, [])
  {
  }

  lemma PopQueue(queue: seq<(string, Source)>, hosts: seq<string>, ns: seq<Source>)
    requires |queue| > 0 && QueueOk(queue, hosts, ns)
    ensures QueueOk(queue[1..], hosts, ns)
    ensures QueueElems(queue) == QueueElems(queue[1..]) + {queue[0].0}
  {
    assert queue == [queue[0]] + queue[1..];
  }

  lemma QueueOkAppend(queue: seq<(string, Source)>, pushed: seq<(string, Source)>, hosts: seq<string>, ns: seq<Source>)
    requires QueueOk(queue, hosts, ns)
    requires forall p :: p in pushed ==> p.1 in ns && p.0 in p.1.links
    ensures QueueOk(queue + pushed, hosts, ns)
    ensures QueueElems(queue + pushed) == QueueElems(queue) + QueueElems(pushed)
  {
    forall q | q in pushed
      ensures q.0 in NetElems(ns)
    {
    }
  }

  lemma SwitchesStep(expanded: seq<string>, hosts: seq<string>, elem: string)
    requires Distinct(expanded) && elem !in expanded
    ensures NonHosts(expanded + [elem], hosts) ==
      if elem in hosts then NonHosts(expanded, hosts) else NonHosts(expanded, hosts) + [elem]
    ensures Distinct(expanded + [elem])
  {
    assert (expanded + [elem])[..|expanded|] == expanded;
  }

  lemma LinksStep(links: seq<Link>, linkFrom: seq<nat>, expanded: seq<string>, expandedFrom: seq<Source>,
                  elem: string, ds: Source, added: seq<Link>)
    requires LinksFrom(links, linkFrom, expanded, expandedFrom) && elem in ds.links
    requires added == FreshLinks(ds.links[elem], set e | e in expanded)
    ensures LinksFrom(links + added, linkFrom + Repeat(|added|, |expanded|), expanded + [elem], expandedFrom + [ds])
    ensures AllFresh(expanded + [elem], expandedFrom + [ds]) == AllFresh(expanded, expandedFrom) + added
  {
    assert (expandedFrom + [ds])[..|expanded|] == expandedFrom;
    var ex := expanded + [elem];
    var from := linkFrom + Repeat(|added|, |expanded|);
    var all := links + added;
    assert ex[..|expanded|] == expanded;
    forall k | 0 <= k < |all|
      ensures from[k] < |ex| && all[k] in (expandedFrom + [ds])[from[k]].links[ex[from[k]]] && all[k].dst !in ex[..from[k]]
    {
      if k < |links| {
        assert ex[..from[k]] == expanded[..linkFrom[k]];
      } else {
        assert all[k] == added[k - |links|];
        assert all[k] in added;
      }
    }
  }

  lemma ClosedSkip(expanded: seq<string>, expandedFrom: seq<Source>, ns: seq<Source>,
                   visited: set<string>, queue: seq<(string, Source)>)
    requires |queue| > 0 && queue[0].0 in visited
    requires Closed(expanded, expandedFrom, ns, visited, queue)
    requires QueueElems(queue) == QueueElems(queue[1..]) + {queue[0].0}
    ensures Closed(expanded, expandedFrom, ns, visited, queue[1..])
  {
  }

  lemma ClosedStep(expanded: seq<string>, expandedFrom: seq<Source>, ns: seq<Source>,
                   visited: set<string>, queue: seq<(string, Source)>, elem: string, ds: Source,
                   added: seq<Link>, pushed: seq<(string, Source)>)
    requires |queue| > 0 && queue[0] == (elem, ds) && elem in ds.links
    requires Closed(expanded, expandedFrom, ns, visited, queue)
    requires QueueElems(queue) == QueueElems(queue[1..]) + {elem}
    requires added == FreshLinks(ds.links[elem], visited)
    requires forall l, k :: l in added && 0 <= k < |ns| && l.dst in ns[k].links ==> (l.dst, ns[k]) in pushed
    ensures Closed(expanded + [elem], expandedFrom + [ds], ns, visited + {elem}, queue[1..] + pushed)
  {
    var ex := expanded + [elem];
    var from := expandedFrom + [ds];
    var q := queue[1..] + pushed;
    assert QueueElems(q) == QueueElems(queue[1..]) + QueueElems(pushed);
    forall k, l | 0 <= k < |ex| && ex[k] in from[k].links && l in from[k].links[ex[k]] && l.dst in NetElems(ns)
      ensures l.dst in visited + {elem} || l.dst in QueueElems(q)
    {
      if k == |expanded| {
        if l.dst !in visited {
          assert l in added;
          var s :| s in ns && l.dst in s.links;
          var j :| 0 <= j < |ns| && ns[j] == s;
          assert (l.dst, ns[j]) in pushed;
        }
      }
    }
  }
}
