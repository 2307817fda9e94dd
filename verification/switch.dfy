/** The switch graph of `gizmos/switch.go`: switches with a growable array of links and a set
    of attached hosts, and the path searches over them. Links are reduced to what the searches
    read (their id, the switch at the far end and their cost); whether a link can carry a
    request is an oracle `room`, fixed for the request's window, amount and user. */
module Switches {
  import opened Wrappers
  import opened Strs

  /** Links are allocated in chunks of this size. */
  const LINK_CHUNK := 32
  /** Capacity of the queue of `Path_to` and of the trail arrays of `All_paths_to`. */
  const FIFO_LEN := 4096

  class Link {
    const id: string
    const forward: Switch
    const cost: int

    constructor (id: string, forward: Switch, cost: int)
      ensures this.id == id && this.forward == forward && this.cost == cost
    {
      this.id := id;
      this.forward := forward;
      this.cost := cost;
    }
  }

  class Switch {
    var id: string
    var links: array<Link?>
    var lidx: int
    var hosts: map<string, bool>
    var hvmid: map<string, Option<string>>
    var hport: map<string, int>
    /** Path-finding state: previous switch, index of the link on it, cost, visited flag. */
    var prev: Switch?
    var plink: int
    var cost: int
    var visited: bool

    /** The first `lidx` slots hold the links added so far. */
    ghost predicate Valid()
      reads this`lidx, this`links, links
    {
      0 <= lidx <= links.Length && forall i :: 0 <= i < lidx ==> links[i] != null
    }

    /** The links added so far, in order. */
    ghost function Links(): seq<Link?>
      reads this`lidx, this`links, links
      requires Valid()
    {
      links[..lidx]
    }

    /** `Mk_switch`: the id is the part of the given one before the first '@' (a queue-lite
        name is host@interface); no links, no hosts. */
    constructor (rawId: string)
      ensures Valid() && Links() == [] && hosts == map[] && hvmid == map[] && hport == map[]
      ensures '@' !in id
      ensures '@' in rawId ==> exists rest :: rawId == id + "@" + rest
      ensures '@' !in rawId ==> id == rawId
      ensures links.Length == LINK_CHUNK && fresh(links)
    {
      var tokens := SplitN2(rawId, '@');
      var head := tokens[0];
      id := head;
      links := new Link?[LINK_CHUNK](_ => null);
      lidx := 0;
      hosts, hvmid, hport := map[], map[], map[];
      prev, plink, cost, visited := null, 0, 0, false;
      if |tokens| == 2 {
        assert rawId == head + "@" + tokens[1];
      }
    }

    /** `Add_link`: the link goes into the next slot; a full array is first replaced by one
        32 slots larger holding the same links. */
    method AddLink(link: Link)
      requires Valid()
      modifies this, links
      ensures Valid()
      ensures Links() == old(Links()) + [link]
      ensures old(lidx) < old(links.Length) ==> links == old(links)
      ensures old(lidx) >= old(links.Length) ==> fresh(links) && links.Length == old(lidx) + LINK_CHUNK
      ensures id == old(id) && hosts == old(hosts) && hvmid == old(hvmid) && hport == old(hport)
      ensures prev == old(prev) && plink == old(plink) && cost == old(cost) && visited == old(visited)
    {
      if lidx >= links.Length {
        links := Grown(links, lidx + LINK_CHUNK);
      }
      links[lidx] := link;
      lidx := lidx + 1;
      assert links[..lidx] == old(links[..lidx]) + [link];
    }

    /** `Get_link`: the i-th link added, or nil out of range. */
    function GetLink(i: int): (l: Link?)
      reads this, links
      requires Valid()
      ensures 0 <= i < lidx ==> l == Links()[i] && l != null
      ensures !(0 <= i < lidx) ==> l == null
    {
      if 0 <= i < lidx then links[i] else null
    }

    /** `Add_host`: the host is attached, with its port and vm id. */
    method AddHost(host: string, vmid: Option<string>, port: int)
      modifies this`hosts, this`hport, this`hvmid
      ensures hosts == old(hosts)[host := true]
      ensures hport == old(hport)[host := port]
      ensures hvmid == old(hvmid)[host := vmid]
    {
      hosts := hosts[host := true];
      hport := hport[host := port];
      hvmid := hvmid[host := vmid];
    }

    /** `Has_host`: the host was added (a missing key reads as false). */
    predicate HasHost(host: string)
      reads this`hosts
    {
      host in hosts && hosts[host]
    }

    /** One link with room of `probe_neighbours`: an unvisited neighbour whose cost through
        this switch is strictly smaller takes that cost, and a hit gets its back pointer set. */
    method Follow(i: int, target: string) returns (hit: bool)
      requires Valid() && 0 <= i < lidx
      modifies links[i].forward`cost, links[i].forward`prev, links[i].forward`plink
      ensures var f := links[i].forward;
        && (hit <==> !f.visited && (f.HasHost(target) || f.id == target))
        && f.cost <= old(f.cost)
        && f.cost == (if !f.visited && old(cost) + links[i].cost < old(f.cost) then old(cost) + links[i].cost else old(f.cost))
        && (f.cost < old(f.cost) || hit ==> f.prev == this && f.plink == i)
        && (f.cost == old(f.cost) && !hit ==> f.prev == old(f.prev) && f.plink == old(f.plink))
    {
      var f := links[i].forward;
      if !f.visited {
        if cost + links[i].cost < f.cost {
          f.cost := cost + links[i].cost;
          f.prev := this;
          f.plink := i;
        }
        if f.HasHost(target) || f.id == target {
          f.prev := this;
          f.plink := i;
          return true;
        }
      }
      return false;
    }

    /** `probe_neighbours`: over the links with room (a link back to the switch just reached is
        skipped), an unvisited neighbour gets a cheaper cost through this switch, and the first
        one that hosts the target or is the target is returned with its back pointer set.
        `capTrip` records a link without room. */
    method Probe(target: string, room: Link -> bool, ghost net: set<Switch>) returns (found: Switch?, capTrip: bool)
      requires this in net && Wired(this, net)
      modifies net`cost, net`prev, net`plink
      ensures found != null ==> found in net && !found.visited && (found.HasHost(target) || found.id == target)
      ensures found != null ==> Reached(found, this, room)
      ensures forall x :: x in net ==> x.cost <= old(x.cost)
      ensures forall x :: x in net && x.cost < old(x.cost) ==> Reached(x, this, room)
      ensures capTrip ==> LacksRoom(this, room)
      ensures found == null && NoSelfLink() ==> (capTrip <==> LacksRoom(this, room))
      ensures NoSelfLink() && found == null ==> forall i :: 0 <= i < lidx && room(links[i]) ==>
        Relaxed(links[i].forward, old(cost) + links[i].cost, target)
    {
      found, capTrip := null, false;
      var fsw: Switch? := null;
      ghost var from := 0;
      ghost var ns := NoSelfLink();
      ghost var ls, c0, w := links[..lidx], cost, 0;
      var i := 0;
      while i < lidx
        invariant 0 <= i <= lidx
        invariant fsw == null || fsw in net
        invariant fsw != null ==> 0 <= from < i && links[from].forward == fsw
        invariant forall x :: x in net ==> x.cost <= old(x.cost)
        invariant forall x :: x in net && x.cost < old(x.cost) ==> Reached(x, this, room)
        invariant capTrip ==> 0 <= w < i && !room(ls[w])
        invariant ns ==> forall k :: 0 <= k < i ==> if room(ls[k]) then Relaxed(ls[k].forward, c0 + ls[k].cost, target) else capTrip
      {
        if this != fsw {
          var l := links[i];
          if room(l) {
            fsw, from := l.forward, i;
            assert ns ==> l.forward != this;
            var hit := Follow(i, target);
            if hit {
              assert capTrip ==> ls[w] in links[..lidx];
              return fsw, capTrip;
            }
          } else {
            capTrip, w := true, i;
          }
        }
        i := i + 1;
      }
      assert capTrip ==> ls[w] in links[..lidx];
    }

    /** No link leads back to this switch. */
    predicate NoSelfLink()
      reads this`lidx, this`links, links
      requires Valid()
    {
      forall k :: 0 <= k < lidx ==> links[k].forward != this
    }

    /** One turn of the `Path_to` loop for this dequeued switch: probe its neighbours for the
        target; without a hit, and when this switch is not yet visited, enqueue its unvisited
        neighbours over links with room at `push`; then mark it visited. */
    method Expand(target: string, room: Link -> bool, fifo: seq<Switch?>, ghost from: nat, push: nat,
                  ghost net: set<Switch>, ghost before: set<Switch>, ghost marked: set<Switch>,
                  ghost adj: map<Switch, seq<Link?>>, ghost cost0: map<Switch, int>, ghost tgt: set<Switch>)
      returns (found: Switch?, capTrip: bool, fifo': seq<Switch?>, push': nat, trip: bool, overrun: bool,
               ghost added: seq<Switch?>)
      requires this in net && from <= push <= |fifo| == FIFO_LEN
      requires Tracked(net, before + marked, adj, cost0, target, tgt)
      modifies net`visited, net`cost, net`prev, net`plink
      ensures found == null && !overrun ==> Tracked(net, before + Marked(before, marked, this), adj, cost0, target, tgt)
      ensures found != null || overrun ==> Tracked(net, before + marked, adj, cost0, target, tgt)
      ensures found != null ==> found in net && (found.HasHost(target) || found.id == target)
      ensures found != null ==> Reached(found, this, room)
      ensures |fifo'| == FIFO_LEN && push <= push' <= FIFO_LEN && fifo'[..push] == fifo[..push]
      ensures added == fifo'[push..push'] && fifo'[from..push'] == fifo[from..push] + added
      ensures forall y :: y in added ==> y != null && y in net
      ensures found == null && !overrun && this !in before + marked ==>
        forall l: Link? :: l in adj[this] && l != null && room(l) ==> l.forward in before + marked || l.forward in added
      ensures found == null && !overrun && this !in before + marked && NoRoomIn(adj[this], room) ==> capTrip || trip
      ensures !overrun && (capTrip || trip) ==> NoRoomIn(adj[this], room)
      ensures found == null && NoLoopIn(adj[this], this) ==> forall y :: y in added ==> y !in tgt
    {
      fifo', push', trip, overrun, added := fifo, push, false, false, [];
      assert Wired(this, net);
      found, capTrip := Probe(target, room, net);
      if found != null {
        return;
      }
      assert NoLoopIn(adj[this], this) ==> NoSelfLink() by {
        forall k | 0 <= k < lidx ensures links[k] in adj[this] {
          assert links[k] == links[..lidx][k];
        }
      }
      ghost var via;
      fifo', push', trip, overrun, added, via := Visit(room, fifo, from, push, net, before, marked, adj, cost0, target, tgt);
    }

    /** The second half of a turn of the `Path_to` loop, once the probe found nothing: a switch
        not yet visited enqueues its unvisited neighbours over links with room; then it is
        marked visited. */
    method Visit(room: Link -> bool, fifo: seq<Switch?>, ghost from: nat, push: nat,
                 ghost net: set<Switch>, ghost before: set<Switch>, ghost marked: set<Switch>,
                 ghost adj: map<Switch, seq<Link?>>, ghost cost0: map<Switch, int>, ghost target: string,
                 ghost tgt: set<Switch>)
      returns (fifo': seq<Switch?>, push': nat, trip: bool, overrun: bool, ghost added: seq<Switch?>,
               ghost via: seq<int>)
      requires this in net && from <= push <= |fifo| == FIFO_LEN
      requires Tracked(net, before + marked, adj, cost0, target, tgt)
      modifies this`visited
      ensures !overrun ==> Tracked(net, before + Marked(before, marked, this), adj, cost0, target, tgt)
      ensures overrun ==> Tracked(net, before + marked, adj, cost0, target, tgt)
      ensures |fifo'| == FIFO_LEN && push <= push' <= FIFO_LEN && fifo'[..push] == fifo[..push]
      ensures added == fifo'[push..push'] && fifo'[from..push'] == fifo[from..push] + added
      ensures forall y :: y in added ==> y != null && y in net
      ensures !overrun && this !in before + marked ==>
        forall l: Link? :: l in adj[this] && l != null && room(l) ==> l.forward in before + marked || l.forward in added
      ensures !overrun && this !in before + marked && NoRoomIn(adj[this], room) ==> trip
      ensures !overrun && trip ==> NoRoomIn(adj[this], room)
      ensures forall y :: y in added ==> y !in before + marked
      ensures |via| == |added| && forall k :: 0 <= k < |via| ==> OverRoom(this, via[k], added[k], room)
    {
      fifo', push', trip, overrun, added, via := fifo, push, false, false, [], [];
      assert Wired(this, net);
      if !visited {
        fifo', push', trip, overrun, via := EnqueueNeighbours(this, fifo, from, push, room, net);
        added := fifo'[push..push'];
        if overrun {
          return;
        }
      }
      Mark(net, before + marked, adj, cost0, target, tgt);
      assert before + Marked(before, marked, this) == before + marked + {this};
    }

    /** Flags this switch visited: the search's heap side holds with it among the seen
        switches. */
    method Mark(ghost net: set<Switch>, ghost seen: set<Switch>, ghost adj: map<Switch, seq<Link?>>,
                ghost cost0: map<Switch, int>, ghost target: string, ghost tgt: set<Switch>)
      requires this in net && Tracked(net, seen, adj, cost0, target, tgt)
      modifies this`visited
      ensures visited && Tracked(net, seen + {this}, adj, cost0, target, tgt)
    {
      visited := true;
    }

    /** `Path_to`: a breadth-first search from this switch through a queue of 4096 entries.
        Each dequeued switch is probed for the target (a hit ends the search); a switch dequeued
        for the first time enqueues its unvisited neighbours over links with room, and is then
        marked visited. Without a hit, the capacity flag says whether some examined link had no
        room. The queue index is tested for wrap-around only once it has passed the end, so
        the write after the 4096th enqueue falls outside the queue (a panic in the source). */
    method PathTo(target: string, room: Link -> bool, ghost net: set<Switch>) returns (r: Search)
      requires this in net && Closed(net)
      modifies net`visited, net`cost, net`prev, net`plink
      ensures r.Found? ==> r.sw in net && (r.sw.HasHost(target) || r.sw.id == target)
      ensures r.Found? ==> r.sw.prev != null && r.sw.prev in net && Reached(r.sw, r.sw.prev, room)
      ensures forall x :: x in net ==> x.cost <= old(x.cost)
      ensures forall x :: x in net && old(x.visited) ==> x.visited
      ensures r.NoPath? ==> visited
      ensures r.NoPath? ==> forall x :: x in net && x.visited && !old(x.visited) ==> RoomyNeighboursVisited(x, room)
      ensures r.NoPath? ==> ((exists x :: x in net && x.visited && !old(x.visited) && LacksRoom(x, room)) ==> r.capTrip)
      ensures r.NoPath? && r.capTrip ==> exists x :: x in net && x.visited && LacksRoom(x, room)
      ensures r.NoPath? && old(Loopless(LinksOf(net))) ==>
        forall x :: x in net && x.visited && !old(x.visited) && x != this ==> !x.HasHost(target) && x.id != target
    {
      ghost var before := VisitedIn(net);
      ghost var tgt := Targets(net, target);
      ghost var adj := LinksOf(net);
      ghost var cost0 := CostsOf(net);
      prev := null;
      var fifo: seq<Switch?> := seq(FIFO_LEN, _ => null);
      var push := 0;
      fifo := fifo[push := this];
      push := Wrapped(push + 1);
      ghost var q: seq<Switch?> := [this];
      assert fifo[0..push] == q;
      ghost var marked;
      r, marked := Drain(target, room, fifo, 0, push, net, before, adj, cost0, tgt, q);
      TrackedFacts(net, before + marked, adj, cost0, target, tgt);
      if r.NoPath? {
        SearchExhausted(net, before + marked, marked, adj, cost0, target, tgt, room);
        MarkedUntargeted(this, net, before, marked, adj, cost0, target, tgt, room, r.capTrip);
      }
    }

    /** The loop of `Path_to`, from the queue holding `q` between `pop` and `push`: each turn
        dequeues a switch and expands it, until a hit, an overrun or an empty queue. */
    method Drain(target: string, room: Link -> bool, fifo: seq<Switch?>, pop: nat, push: nat,
                 ghost net: set<Switch>, ghost before: set<Switch>, ghost adj: map<Switch, seq<Link?>>,
                 ghost cost0: map<Switch, int>, ghost tgt: set<Switch>, ghost q: seq<Switch?>)
      returns (r: Search, ghost marked: set<Switch>)
      requires 0 <= pop <= push <= |fifo| == FIFO_LEN && fifo[pop..push] == q
      requires Frontier(this, net, before, {}, adj, q, false, room, tgt)
      requires Tracked(net, before, adj, cost0, target, tgt)
      modifies net`visited, net`cost, net`prev, net`plink
      ensures Tracked(net, before + marked, adj, cost0, target, tgt)
      ensures r.Found? ==> r.sw in net && (r.sw.HasHost(target) || r.sw.id == target)
      ensures r.Found? ==> r.sw.prev != null && r.sw.prev in net && Reached(r.sw, r.sw.prev, room)
      ensures r.NoPath? ==> Frontier(this, net, before, marked, adj, [], r.capTrip, room, tgt)
    {
      var fifo, pop, push, lcapTrip := fifo, pop, push, false;
      var q := q;
      marked := {};
      assert before + marked == before;
      while push != pop
        invariant 0 <= pop <= push <= |fifo| == FIFO_LEN && fifo[pop..push] == q
        invariant Frontier(this, net, before, marked, adj, q, lcapTrip, room, tgt)
        invariant Tracked(net, before + marked, adj, cost0, target, tgt)
        decreases FIFO_LEN - pop
      {
        assert fifo[pop] == q[0] && q[0] in q;
        var sw: Switch := fifo[pop];
        assert fifo[pop + 1..push] == q[1..];
        pop := Wrapped(pop + 1);
        var found, capTrip, trip, overrun;
        ghost var added;
        found, capTrip, fifo, push, trip, overrun, added :=
          sw.Expand(target, room, fifo, pop, push, net, before, marked, adj, cost0, tgt);
        if found != null {
          return Found(found, capTrip), marked;
        }
        if overrun {
          return QueueOverrun, marked;
        }
        Advance(this, net, before, marked, adj, q, lcapTrip, room, tgt, sw, added, capTrip || trip);
        if capTrip || trip {
          lcapTrip := true;
        }
        marked := Marked(before, marked, sw);
        q := q[1..] + added;
      }
      return NoPath(lcapTrip), marked;
    }

    /** `ap_search_neighbours`: a depth-first walk from this switch over the switches not
        flagged visited. A switch hosting the target records the walk that led to it as a trail
        and becomes the trail list's end switch; any other switch is flagged while its
        neighbours are walked. Either way its flag is cleared on the way back, so other walks
        may pass through it again. */
    method ApSearch(target: string, walk: seq<Link>, tl: TrailList, ghost vis: set<Switch>,
                    ghost net: set<Switch>, ghost adj: map<Switch, seq<Link?>>, ghost hosting: set<Switch>)
      requires this in net && Mirrors(net, adj, hosting, target) && tl.Valid()
      requires forall x {:trigger x.visited} :: x in net ==> (x.visited <==> x in vis)
      modifies net`visited, tl
      ensures tl.trails == old(tl.trails) + Trails(this, hosting, walk, vis, adj)
      ensures tl.Valid()
      ensures forall x {:trigger x.visited} :: x in net ==> (x.visited <==> x in vis && x != this)
      decreases net - vis, if this in vis then 2 else 0
    {
      if HasHost(target) {
        tl.ep := this;
        tl.trails := tl.trails + [Trail(walk, this)];
      } else {
        visited := true;
        var i := 0;
        while i < lidx
          invariant 0 <= i <= lidx
          invariant forall x {:trigger x.visited} :: x in net ==> (x.visited <==> x in vis + {this})
          invariant tl.trails + TrailsFrom(this, hosting, walk, vis + {this}, adj, i) ==
            old(tl.trails) + Trails(this, hosting, walk, vis, adj)
          invariant tl.Valid()
        {
          WalkLink(i, target, walk, tl, vis + {this}, net, adj, hosting);
          i := i + 1;
        }
      }
      visited := false;
    }

    /** The body of the loop of `ap_search_neighbours` for the i-th link: the neighbour it
        leads to is walked when it is not flagged. */
    method WalkLink(i: int, target: string, walk: seq<Link>, tl: TrailList, ghost vis: set<Switch>,
                    ghost net: set<Switch>, ghost adj: map<Switch, seq<Link?>>, ghost hosting: set<Switch>)
      requires this in net && Mirrors(net, adj, hosting, target) && tl.Valid()
      requires this in vis && 0 <= i < lidx
      requires forall x {:trigger x.visited} :: x in net ==> (x.visited <==> x in vis)
      modifies net`visited, tl
      ensures tl.trails + TrailsFrom(this, hosting, walk, vis, adj, i + 1) ==
        old(tl.trails) + TrailsFrom(this, hosting, walk, vis, adj, i)
      ensures tl.Valid()
      ensures forall x {:trigger x.visited} :: x in net ==> (x.visited <==> x in vis)
      decreases net - vis, 1
    {
      var l := links[i];
      assert l == adj[this][i] && l in adj[this];
      var sn := l.forward;
      ghost var rest := TrailsFrom(this, hosting, walk, vis, adj, i + 1);
      if !sn.visited {
        ghost var found := Trails(sn, hosting, walk + [l], vis, adj);
        assert TrailsFrom(this, hosting, walk, vis, adj, i) == found + rest;
        sn.ApSearch(target, walk + [l], tl, vis, net, adj, hosting);
        assert tl.trails + rest == old(tl.trails) + (found + rest);
      } else {
        assert TrailsFrom(this, hosting, walk, vis, adj, i) == rest;
      }
    }

    /** `All_paths_to`: every trail from this switch to a switch hosting the target, reduced
        to its distinct links (the first link seen with each id). Without trails the result is
        an error and no end switch. With trails, the links are returned when every one of them
        has room and are nil otherwise; the error stays nil in that case too, because the
        capacity failure is assigned to a variable that shadows the result. */
    method AllPathsTo(target: string, room: Link -> bool, ghost net: set<Switch>)
      returns (links: Option<seq<Link>>, ep: Switch?, err: Option<string>)
      requires this in net && Closed(net)
      modifies net`visited
      ensures forall x :: x in net ==> (x.visited <==> old(x.visited) && x != this)
      ensures old(this in LinksOf(net) && Linked(LinksOf(net)))
      ensures var ts := Trails(this, old(Hosting(net, target)), [], old(VisitedIn(net)), old(LinksOf(net)));
        && (ts == [] ==> links == None && ep == null && err == Some(NoPathsMsg(id, target)))
        && (ts != [] ==> ep == ts[|ts| - 1].end && err == None)
        && (ts != [] ==> (links.Some? <==> forall k :: k in Dedup(Flatten(ts)) ==> room(Dedup(Flatten(ts))[k])))
        && (links.Some? ==> Listing(links.value, Dedup(Flatten(ts))))
    {
      ghost var vis := VisitedIn(net);
      ghost var adj := LinksOf(net);
      ghost var hosting := Hosting(net, target);
      ClosedLinked(net, adj);
      var tl := new TrailList();
      ApSearch(target, [], tl, vis, net, adj, hosting);
      ghost var ts := Trails(this, hosting, [], vis, adj);
      assert tl.trails == ts;
      if |tl.trails| > 0 {
        ep := tl.ep;
        var ulinks := UniqueLinks(tl.trails);
        links := Admit(ulinks, room);
        err := None;
      } else {
        links, ep, err := None, null, Some(NoPathsMsg(id, target));
      }
    }
  }

  /** A trail of `All_paths_to`: the links walked from the start and the switch where the
      walk met the target. */
  datatype Trail = Trail(links: seq<Link>, end: Switch)

  /** The trail list of `All_paths_to`: the trails found so far and the end switch of the
      last one. */
  class TrailList {
    var trails: seq<Trail>
    var ep: Switch?

    /** The end switch is that of the last trail, and there is none before the first. */
    ghost predicate Valid()
      reads this
    {
      if trails == [] then ep == null else ep == trails[|trails| - 1].end
    }

    constructor ()
      ensures trails == [] && ep == null && Valid()
    {
      trails, ep := [], null;
    }
  }

  /** The error of `All_paths_to` when no trail exists (its wording as in the source). */
  function NoPathsMsg(from: string, target: string): (m: string)
    ensures |m| > |from| + |target|
  {
    "no paths found bwtween switch (" + from + ") and target (" + target + ")"
  }

  /** The trails of the depth-first walk from `s`, arrived at over `walk`, when the switches
      of `vis` are flagged, over the links `adj` of each switch: `s` itself when it is one of
      the switches `hosting` the target, else the trails through each of its links in order
      to a neighbour not flagged, with `s` flagged meanwhile. */
  ghost function Trails(s: Switch, hosting: set<Switch>, walk: seq<Link>, vis: set<Switch>,
                        adj: map<Switch, seq<Link?>>): seq<Trail>
    requires s in adj && Linked(adj)
    decreases adj.Keys - vis, if s in vis then 2 else 0, 0
  {
    if s in hosting then [Trail(walk, s)]
    else TrailsFrom(s, hosting, walk, vis + {s}, adj, 0)
  }

  /** The trails through the links of `s` from the i-th on. */
  ghost function TrailsFrom(s: Switch, hosting: set<Switch>, walk: seq<Link>, vis: set<Switch>,
                            adj: map<Switch, seq<Link?>>, i: nat): seq<Trail>
    requires s in adj && Linked(adj)
    decreases adj.Keys - vis, 1, |adj[s]| - i
  {
    if i >= |adj[s]| then []
    else
      var l := adj[s][i];
      assert l in adj[s];
      (if l.forward in vis then [] else Trails(l.forward, hosting, walk + [l], vis, adj))
      + TrailsFrom(s, hosting, walk, vis, adj, i + 1)
  }

  /** Every link listed in `adj` is present and leads to a switch of `adj`. */
  ghost predicate Linked(adj: map<Switch, seq<Link?>>)
  {
    forall x, l: Link? :: x in adj && l in adj[x] ==> l != null && l.forward in adj
  }

  /** The switches of `net` hosting `target`. */
  ghost function Hosting(net: set<Switch>, target: string): (r: set<Switch>)
    reads net`hosts
    ensures forall x :: x in net ==> (x in r <==> x.HasHost(target))
  {
    set x | x in net && x.HasHost(target)
  }

  /** `adj` and `hosting` describe the switches of `net` as they stand. */
  ghost predicate Mirrors(net: set<Switch>, adj: map<Switch, seq<Link?>>, hosting: set<Switch>, target: string)
    reads net`lidx, net`links, net`hosts, set x | x in net :: x.links
  {
    adj.Keys == net && Linked(adj) &&
    forall x {:trigger x.lidx} :: x in net ==>
      && 0 <= x.lidx <= x.links.Length && adj[x] == x.links[..x.lidx]
      && (x in hosting <==> x.HasHost(target))
  }

  /** The links of a closed network are all present and stay inside it. */
  lemma ClosedLinked(net: set<Switch>, adj: map<Switch, seq<Link?>>)
    requires Closed(net)
    requires adj.Keys == net && forall x :: x in net ==> 0 <= x.lidx <= x.links.Length && adj[x] == x.links[..x.lidx]
    ensures Linked(adj)
  {
    forall x, l: Link? | x in adj && l in adj[x] ensures l != null && l.forward in adj {
      assert Wired(x, net);
      var i :| 0 <= i < x.lidx && x.links[i] == l;
    }
  }

  /** `ls` leads from `s` over links of `adj` to `end`, the first switch on the way that
      hosts the target, never entering a switch of `vis` nor any switch twice. */
  ghost predicate SimpleTrail(s: Switch, ls: seq<Link>, end: Switch, vis: set<Switch>, hosting: set<Switch>,
                              adj: map<Switch, seq<Link?>>)
    decreases |ls|
  {
    s in adj &&
    if s in hosting then ls == [] && end == s
    else
      ls != [] && ls[0] in adj[s] && ls[0].forward !in vis + {s} &&
      SimpleTrail(ls[0].forward, ls[1..], end, vis + {s}, hosting, adj)
  }

  /** Soundness of the search: every trail found from `s` continues `walk` with a simple
      trail from `s` to a switch hosting the target. */
  lemma {:induction false} TrailsSimple(s: Switch, hosting: set<Switch>, walk: seq<Link>, vis: set<Switch>,
                                        adj: map<Switch, seq<Link?>>)
    requires s in adj && Linked(adj)
    ensures forall t :: t in Trails(s, hosting, walk, vis, adj) ==>
      |walk| <= |t.links| && t.links[..|walk|] == walk && SimpleTrail(s, t.links[|walk|..], t.end, vis, hosting, adj)
    decreases adj.Keys - vis, if s in vis then 2 else 0, 0
  {
    if s in hosting {
      assert walk[|walk|..] == [];
    } else {
      TrailsFromSimple(s, hosting, walk, vis + {s}, adj, 0);
      forall t | t in Trails(s, hosting, walk, vis, adj)
        ensures SimpleTrail(s, t.links[|walk|..], t.end, vis, hosting, adj)
      {
        assert t.links[|walk|..][1..] == t.links[|walk| + 1..];
      }
    }
  }

  /** The same for the trails through the links of `s` from the i-th on: each goes first
      over a link of `s` to a switch outside `vis`. */
  lemma {:induction false} TrailsFromSimple(s: Switch, hosting: set<Switch>, walk: seq<Link>, vis: set<Switch>,
                                            adj: map<Switch, seq<Link?>>, i: nat)
    requires s in adj && Linked(adj)
    ensures forall t :: t in TrailsFrom(s, hosting, walk, vis, adj, i) ==>
      |walk| < |t.links| && t.links[..|walk|] == walk && t.links[|walk|] in adj[s] &&
      t.links[|walk|].forward !in vis &&
      SimpleTrail(t.links[|walk|].forward, t.links[|walk| + 1..], t.end, vis, hosting, adj)
    decreases adj.Keys - vis, 1, |adj[s]| - i
  {
    if i < |adj[s]| {
      var l := adj[s][i];
      assert l in adj[s];
      TrailsFromSimple(s, hosting, walk, vis, adj, i + 1);
      if l.forward !in vis {
        TrailsSimple(l.forward, hosting, walk + [l], vis, adj);
        forall t | t in Trails(l.forward, hosting, walk + [l], vis, adj)
          ensures |walk| < |t.links| && t.links[..|walk|] == walk && t.links[|walk|] == l
          ensures t.links[|walk| + 1..] == t.links[|walk + [l]|..]
        {
          assert t.links[..|walk|] == t.links[..|walk + [l]|][..|walk|];
          assert t.links[|walk|] == t.links[..|walk + [l]|][|walk|];
        }
      }
    }
  }

  /** Completeness of the search: every simple trail from `s` to a switch hosting the
      target, continuing `walk`, is found. */
  lemma {:induction false} SimpleTrailFound(s: Switch, ls: seq<Link>, end: Switch, hosting: set<Switch>,
                                            walk: seq<Link>, vis: set<Switch>, adj: map<Switch, seq<Link?>>)
    requires Linked(adj) && SimpleTrail(s, ls, end, vis, hosting, adj)
    ensures Trail(walk + ls, end) in Trails(s, hosting, walk, vis, adj)
    decreases |ls|
  {
    if s in hosting {
      assert walk + ls == walk;
    } else {
      var l := ls[0];
      SimpleTrailFound(l.forward, ls[1..], end, hosting, walk + [l], vis + {s}, adj);
      assert walk + [l] + ls[1..] == walk + ls;
      var j :| 0 <= j < |adj[s]| && adj[s][j] == l;
      TrailsFromHas(s, hosting, walk, vis + {s}, adj, 0, j, l, Trail(walk + ls, end));
    }
  }

  /** A trail found through the j-th link of `s` is among the trails through its links
      from any i-th on up to j. */
  lemma {:induction false} TrailsFromHas(s: Switch, hosting: set<Switch>, walk: seq<Link>, vis: set<Switch>,
                                         adj: map<Switch, seq<Link?>>, i: nat, j: nat, l: Link, t: Trail)
    requires s in adj && Linked(adj) && i <= j < |adj[s]| && adj[s][j] == l && l.forward !in vis
    requires t in Trails(l.forward, hosting, walk + [l], vis, adj)
    ensures t in TrailsFrom(s, hosting, walk, vis, adj, i)
    decreases j - i
  {
    if i < j {
      TrailsFromHas(s, hosting, walk, vis, adj, i + 1, j, l, t);
    }
  }

  /** The links of all trails, in order. */
  function Flatten(ts: seq<Trail>): (ls: seq<Link>)
    ensures forall t, l :: t in ts && l in t.links ==> l in ls
  {
    if ts == [] then [] else Flatten(ts[..|ts| - 1]) + ts[|ts| - 1].links
  }

  /** The map of `All_paths_to` from link id to the first link with that id. */
  function Dedup(ls: seq<Link>): (u: map<string, Link>)
    ensures |u| <= |ls|
  {
    if ls == [] then map[]
    else
      var u := Dedup(ls[..|ls| - 1]);
      var l := ls[|ls| - 1];
      if l.id in u then u else u[l.id := l]
  }

  /** The map is keyed by id, holds links of the list, and has an entry for every link. */
  lemma {:induction false} DedupKeys(ls: seq<Link>)
    ensures forall k :: k in Dedup(ls) ==> Dedup(ls)[k].id == k && Dedup(ls)[k] in ls
    ensures forall l :: l in ls ==> l.id in Dedup(ls)
  {
    if ls != [] {
      var init, l := ls[..|ls| - 1], ls[|ls| - 1];
      DedupKeys(init);
      assert ls == init + [l];
    }
  }

  /** The link kept for an id is the first one carrying it. */
  lemma {:induction false} DedupFirst(ls: seq<Link>, i: nat)
    requires i < |ls| && forall j :: 0 <= j < i ==> ls[j].id != ls[i].id
    ensures ls[i].id in Dedup(ls) && Dedup(ls)[ls[i].id] == ls[i]
  {
    var init := ls[..|ls| - 1];
    if i < |ls| - 1 {
      DedupFirst(init, i);
    } else {
      DedupKeys(init);
    }
  }

  /** `links` lists every link of `u` once. */
  ghost predicate Listing(links: seq<Link>, u: map<string, Link>)
  {
    |links| == |u| && forall k :: k in u ==> u[k] in links
  }

  /** The de-duplication loop of `All_paths_to`: for each trail, for each of its links, the
      link is entered under its id unless the id is already taken. */
  method UniqueLinks(ts: seq<Trail>) returns (u: map<string, Link>)
    ensures u == Dedup(Flatten(ts))
  {
    u := map[];
    var i := 0;
    while i < |ts|
      invariant 0 <= i <= |ts|
      invariant u == Dedup(Flatten(ts[..i]))
    {
      u := EnterLinks(u, ts[i].links, Flatten(ts[..i]));
      assert ts[..i + 1][..i] == ts[..i];
      i := i + 1;
    }
    assert ts[..i] == ts;
  }

  /** The inner loop of the de-duplication: the links of one trail, entered in order after
      the links `seen` before them. */
  method EnterLinks(u: map<string, Link>, links: seq<Link>, ghost seen: seq<Link>) returns (u': map<string, Link>)
    requires u == Dedup(seen)
    ensures u' == Dedup(seen + links)
  {
    u' := u;
    var j := 0;
    assert seen + links[..j] == seen;
    while j < |links|
      invariant 0 <= j <= |links|
      invariant u' == Dedup(seen + links[..j])
    {
      var l := links[j];
      DedupSnoc(seen + links[..j], l);
      SnocSlice(seen, links, j);
      if l.id !in u' {
        u' := u'[l.id := l];
      }
      j := j + 1;
    }
    assert links[..j] == links;
  }

  /** Extending a slice of `links` by one element. */
  lemma SnocSlice(seen: seq<Link>, links: seq<Link>, j: nat)
    requires j < |links|
    ensures seen + links[..j + 1] == seen + links[..j] + [links[j]]
  {
    assert links[..j + 1] == links[..j] + [links[j]];
  }

  /** One more link: it is entered unless its id is taken. */
  lemma DedupSnoc(ls: seq<Link>, l: Link)
    ensures Dedup(ls + [l]) == if l.id in Dedup(ls) then Dedup(ls) else Dedup(ls)[l.id := l]
  {
    assert (ls + [l])[..|ls|] == ls;
  }

  /** The capacity loop of `All_paths_to`, over the map in an unspecified order: each link is
      listed while it has room; the first one without room makes the list nil. */
  method Admit(u: map<string, Link>, room: Link -> bool) returns (links: Option<seq<Link>>)
    ensures links.Some? <==> forall k :: k in u ==> room(u[k])
    ensures links.Some? ==> Listing(links.value, u)
  {
    var out: seq<Link> := [];
    var left := u.Keys;
    while left != {}
      invariant left <= u.Keys
      invariant |out| + |left| == |u|
      invariant forall k :: k in u.Keys - left ==> u[k] in out && room(u[k])
      decreases left
    {
      var k :| k in left;
      if !room(u[k]) {
        return None;
      }
      out := out + [u[k]];
      left := left - {k};
    }
    return Some(out);
  }

  /** Outcome of `Path_to`: the switch reached (with the capacity flag of its probe), no path
      (with the accumulated capacity flag), or a write past the end of the queue. */
  datatype Search = Found(sw: Switch, capTrip: bool) | NoPath(capTrip: bool) | QueueOverrun

  /** The wrap-around test of the queue indices as written: only an index past the end wraps. */
  function Wrapped(i: int): (r: int)
    ensures i <= FIFO_LEN ==> r == i
  {
    if i > FIFO_LEN then 0 else i
  }

  /** Every neighbour of `x` over a link with room is visited. */
  ghost predicate RoomyNeighboursVisited(x: Switch, room: Link -> bool)
    reads x`lidx, x`links, x.links, set l | l in x.links[..] && l != null :: l.forward
  {
    0 <= x.lidx <= x.links.Length &&
    forall l: Link? :: l in x.links[..x.lidx] && l != null && room(l) ==> l.forward.visited
  }

  /** No link listed in `adj` leads back to the switch it belongs to. */
  ghost predicate Loopless(adj: map<Switch, seq<Link?>>)
  {
    forall x :: x in adj ==> NoLoopIn(adj[x], x)
  }

  /** None of the links `ls` leads to `x`. */
  ghost predicate NoLoopIn(ls: seq<Link?>, x: Switch)
  {
    forall l: Link? :: l in ls && l != null ==> l.forward != x
  }

  /** The switches of `net` that host the target or are the target. */
  ghost function Targets(net: set<Switch>, target: string): (r: set<Switch>)
    reads net`hosts, net`id
    ensures forall x :: x in net ==> (x in r <==> x.HasHost(target) || x.id == target)
  {
    set x | x in net && (x.HasHost(target) || x.id == target)
  }

  /** Apart from the start switch, no queued and no marked switch is among the targets. */
  ghost predicate Untargeted(start: Switch, q: seq<Switch?>, marked: set<Switch>, tgt: set<Switch>)
  {
    && (forall y :: y in q && y != start ==> y !in tgt)
    && (forall x :: x in marked && x != start ==> x !in tgt)
  }

  /** Dequeuing `sw` and enqueueing only switches outside the targets keeps them out of the
      queue and of the marked switches. */
  lemma UntargetedStep(start: Switch, q: seq<Switch?>, marked: set<Switch>, tgt: set<Switch>,
                       before: set<Switch>, sw: Switch, added: seq<Switch?>)
    requires Untargeted(start, q, marked, tgt) && |q| > 0 && q[0] == sw
    requires forall y :: y in added ==> y !in tgt
    ensures Untargeted(start, q[1..] + added, Marked(before, marked, sw), tgt)
  {
    assert q == [sw] + q[1..] && sw in q;
  }

  /** The i-th link of `x` has room and leads to `y`. */
  ghost predicate OverRoom(x: Switch, i: int, y: Switch?, room: Link -> bool)
    reads x`lidx, x`links, x.links
  {
    0 <= i < x.lidx <= x.links.Length && x.links[i] != null && room(x.links[i]) && x.links[i].forward == y
  }

  /** Some link of `x` has no room. */
  ghost predicate LacksRoom(x: Switch, room: Link -> bool)
    reads x`lidx, x`links, x.links
  {
    0 <= x.lidx <= x.links.Length && NoRoomIn(x.links[..x.lidx], room)
  }

  /** The search's closure so far: every neighbour over a link with room of a switch in
      `marked` has been seen or is still queued. */
  ghost predicate Explored(marked: set<Switch>, seen: set<Switch>, adj: map<Switch, seq<Link?>>,
                           queue: seq<Switch?>, room: Link -> bool)
  {
    forall x :: x in marked ==>
      x in adj && forall l: Link? :: l in adj[x] && l != null && room(l) ==> l.forward in seen || l.forward in queue
  }

  /** The switches marked by the search once `sw` is visited: `sw` joins them unless it was
      already visited. */
  function Marked(before: set<Switch>, marked: set<Switch>, sw: Switch): (m: set<Switch>)
    ensures m !! before <== marked !! before
  {
    if sw in before + marked then marked else marked + {sw}
  }

  /** The pure side of the `Path_to` search: the queue holds switches of `net`, the switches
      marked so far are new to the search, the start switch is seen or queued, the closure
      holds, the capacity flag is set whenever a marked switch has a link without room, and
      only when some seen switch has one, and, when no link leads back to its own switch,
      no queued or marked switch other than the start is among the targets `tgt`. */
  ghost predicate Frontier(start: Switch, net: set<Switch>, before: set<Switch>, marked: set<Switch>,
                           adj: map<Switch, seq<Link?>>, q: seq<Switch?>, capTrip: bool, room: Link -> bool,
                           tgt: set<Switch>)
  {
    && (forall y :: y in q ==> y != null && y in net)
    && before <= net && marked <= net && marked !! before && (forall x :: x in net ==> x in adj)
    && (start in before + marked || start in q)
    && Explored(marked, before + marked, adj, q, room)
    && ((exists x :: x in marked && x in adj && NoRoomIn(adj[x], room)) ==> capTrip)
    && (capTrip ==> exists x :: x in before + marked && x in adj && NoRoomIn(adj[x], room))
    && (Loopless(adj) ==> Untargeted(start, q, marked, tgt))
  }

  /** One turn of the search keeps the frontier: `sw` leaves the head of the queue, its unseen
      neighbours over links with room join the tail (none of them a target when `sw` has no
      link to itself), and the capacity flag takes `tripped`. */
  lemma Advance(start: Switch, net: set<Switch>, before: set<Switch>, marked: set<Switch>,
                adj: map<Switch, seq<Link?>>, q: seq<Switch?>, capTrip: bool, room: Link -> bool, tgt: set<Switch>,
                sw: Switch, added: seq<Switch?>, tripped: bool)
    requires Frontier(start, net, before, marked, adj, q, capTrip, room, tgt) && |q| > 0 && q[0] == sw
    requires NoLoopIn(adj[sw], sw) ==> forall y :: y in added ==> y !in tgt
    requires forall y :: y in added ==> y != null && y in net
    requires sw !in before + marked ==>
      forall l: Link? :: l in adj[sw] && l != null && room(l) ==> l.forward in before + marked || l.forward in added
    requires sw !in before + marked && NoRoomIn(adj[sw], room) ==> tripped
    requires tripped ==> NoRoomIn(adj[sw], room)
    ensures Frontier(start, net, before, Marked(before, marked, sw), adj, q[1..] + added, capTrip || tripped, room, tgt)
  {
    if Loopless(adj) {
      UntargetedStep(start, q, marked, tgt, before, sw, added);
    }
    var m, q' := Marked(before, marked, sw), q[1..] + added;
    assert q == [sw] + q[1..] && sw in q;
    ExploreStep(marked, before, adj, sw, q[1..], added, room);
    assert sw in before + m && marked <= m <= marked + {sw};
    assert forall y :: y in q' ==> y in q || y in added;
    assert start in before + m || start in q' by {
      if start !in before + marked && start != sw {
        assert start in q[1..];
      }
    }
    if exists x :: x in m && x in adj && NoRoomIn(adj[x], room) {
      var x :| x in m && x in adj && NoRoomIn(adj[x], room);
      assert x in marked || (x == sw && sw !in before + marked);
    }
  }

  /** Dequeuing `sw` and enqueueing `added` keeps the closure, once `sw` is marked if it was not
      seen before and `added` holds its unseen neighbours over links with room. */
  lemma ExploreStep(marked: set<Switch>, before: set<Switch>, adj: map<Switch, seq<Link?>>,
                    sw: Switch, rest: seq<Switch?>, added: seq<Switch?>, room: Link -> bool)
    requires Explored(marked, before + marked, adj, [sw] + rest, room)
    requires sw in adj
    requires sw !in before + marked ==>
      forall l: Link? :: l in adj[sw] && l != null && room(l) ==> l.forward in before + marked || l.forward in added
    ensures var m := Marked(before, marked, sw); Explored(m, before + m, adj, rest + added, room)
  {
    var m := Marked(before, marked, sw);
    forall x, l: Link? | x in m && l in adj[x] && l != null && room(l)
      ensures l.forward in before + m || l.forward in rest + added
    {
      if x in marked {
        assert l.forward in before + marked || l.forward in [sw] + rest;
      }
    }
  }

  /** Once the queue is empty, every switch marked by the search has all its neighbours over
      links with room visited, and its links are the ones the search looked at. */
  lemma SearchExhausted(net: set<Switch>, seen: set<Switch>, marked: set<Switch>,
                        adj: map<Switch, seq<Link?>>, cost0: map<Switch, int>, target: string, tgt: set<Switch>,
                        room: Link -> bool)
    requires marked <= net && Tracked(net, seen, adj, cost0, target, tgt)
    requires Explored(marked, seen, adj, [], room)
    ensures forall x :: x in marked ==> RoomyNeighboursVisited(x, room)
    ensures forall x :: x in net ==> (LacksRoom(x, room) <==> NoRoomIn(adj[x], room))
  {
    forall x | x in marked ensures RoomyNeighboursVisited(x, room) {
      assert Wired(x, net);
      forall l: Link? | l in x.links[..x.lidx] && l != null && room(l) ensures l.forward.visited {
        var i :| 0 <= i < x.lidx && x.links[i] == l;
        assert l.forward in net;
      }
    }
  }

  /** Once the queue is empty and no link leads back to its own switch, no switch the search
      newly visited, other than the start, hosts or is the target. */
  lemma MarkedUntargeted(start: Switch, net: set<Switch>, before: set<Switch>, marked: set<Switch>,
                         adj: map<Switch, seq<Link?>>, cost0: map<Switch, int>, target: string, tgt: set<Switch>,
                         room: Link -> bool, capTrip: bool)
    requires Frontier(start, net, before, marked, adj, [], capTrip, room, tgt)
    requires Tracked(net, before + marked, adj, cost0, target, tgt)
    ensures Loopless(adj) ==> forall x :: x in net && x.visited && x !in before && x != start ==>
      !x.HasHost(target) && x.id != target
  {
  }

  /** The heap side of the `Path_to` search: the network is closed, `adj` holds each switch's
      links, the visited flags are exactly `seen`, no cost exceeds its value in `cost0`, and
      `tgt` holds the switches that host or are the target. */
  ghost predicate Tracked(net: set<Switch>, seen: set<Switch>, adj: map<Switch, seq<Link?>>, cost0: map<Switch, int>,
                          target: string, tgt: set<Switch>)
    reads net`visited, net`cost, net`lidx, net`links, net`hosts, net`id, set s | s in net :: s.links
  {
    Closed(net) &&
    forall x :: x in net ==>
      && 0 <= x.lidx <= x.links.Length && x in adj && adj[x] == x.links[..x.lidx]
      && (x.visited <==> x in seen) && x in cost0 && x.cost <= cost0[x]
      && (x in tgt <==> x.HasHost(target) || x.id == target)
  }

  /** What `Tracked` says about each switch, spelled out. */
  lemma TrackedFacts(net: set<Switch>, seen: set<Switch>, adj: map<Switch, seq<Link?>>, cost0: map<Switch, int>,
                     target: string, tgt: set<Switch>)
    requires Tracked(net, seen, adj, cost0, target, tgt)
    ensures forall x :: x in net ==> (x.visited <==> x in seen) && x in cost0 && x.cost <= cost0[x]
    ensures forall x :: x in net ==> (x in tgt <==> x.HasHost(target) || x.id == target)
  {
  }

  /** The switches of `net` whose visited flag is set. */
  ghost function VisitedIn(net: set<Switch>): (r: set<Switch>)
    reads net`visited
    ensures r <= net && forall x :: x in net ==> (x.visited <==> x in r)
  {
    set x | x in net && x.visited
  }

  /** The links of each switch of `net`. */
  ghost function LinksOf(net: set<Switch>): (r: map<Switch, seq<Link?>>)
    requires Closed(net)
    reads net`lidx, net`links, set s | s in net :: s.links
    ensures r.Keys == net
    ensures forall x :: x in net ==> x in r && 0 <= x.lidx <= x.links.Length && r[x] == x.links[..x.lidx]
  {
    assert forall x :: x in net ==> Wired(x, net);
    map x | x in net :: x.links[..x.lidx]
  }

  /** The cost of each switch of `net`. */
  ghost function CostsOf(net: set<Switch>): (r: map<Switch, int>)
    reads net`cost
    ensures forall x :: x in net ==> x in r && r[x] == x.cost
  {
    map x | x in net :: x.cost
  }

  /** Some link among `ls` has no room. */
  ghost predicate NoRoomIn(ls: seq<Link?>, room: Link -> bool)
  {
    exists l: Link? :: l in ls && l != null && !room(l)
  }

  /** The inner loop of `Path_to` for a switch dequeued unvisited: each neighbour over a link
      with room that is not yet visited is enqueued, and a link without room is noted. An
      enqueue at the end of the queue overruns it. */
  method EnqueueNeighbours(sw: Switch, fifo: seq<Switch?>, ghost from: nat, push: nat, room: Link -> bool,
                           ghost net: set<Switch>)
    returns (fifo': seq<Switch?>, push': nat, trip: bool, overrun: bool, ghost via: seq<int>)
    requires sw in net && Wired(sw, net) && from <= push <= |fifo| == FIFO_LEN
    ensures |fifo'| == FIFO_LEN && push <= push' <= FIFO_LEN && fifo'[..push] == fifo[..push]
    ensures fifo'[from..push'] == fifo[from..push] + fifo'[push..push']
    ensures forall k :: push <= k < push' ==> fifo'[k] != null && fifo'[k] in net
    ensures forall k :: push <= k < push' ==> !fifo'[k].visited
    ensures |via| == push' - push && forall k :: 0 <= k < |via| ==> OverRoom(sw, via[k], fifo'[push + k], room)
    ensures !overrun ==> forall l: Link? :: l in sw.links[..sw.lidx] && l != null && room(l) ==>
      l.forward.visited || l.forward in fifo'[push..push']
    ensures !overrun ==> (trip <==> LacksRoom(sw, room))
    ensures overrun ==> push' == FIFO_LEN
  {
    fifo', push', trip, overrun, via := fifo, push, false, false, [];
    ghost var added: seq<Switch?> := [];
    var i := 0;
    while i < sw.lidx
      invariant 0 <= i <= sw.lidx
      invariant |fifo'| == FIFO_LEN && push <= push' <= FIFO_LEN && fifo'[..push] == fifo[..push]
      invariant fifo'[push..push'] == added
      invariant |via| == push' - push
      invariant forall k :: push <= k < push' ==>
        fifo'[k] != null && fifo'[k] in net && !fifo'[k].visited && OverRoom(sw, via[k - push], fifo'[k], room)
      invariant forall l: Link? :: l in sw.links[..i] && l != null && room(l) ==> l.forward.visited || l.forward in added
      invariant trip <==> NoRoomIn(sw.links[..i], room)
    {
      var l := sw.links[i];
      if room(l) {
        if !l.forward.visited {
          if push' >= FIFO_LEN {
            KeptPrefix(fifo, fifo', from, push, push');
            return fifo', push', trip, true, via;
          }
          fifo' := fifo'[push' := l.forward];
          push' := Wrapped(push' + 1);
          added := added + [l.forward];
          via := via + [i];
        }
      } else {
        trip := true;
      }
      assert sw.links[..i + 1] == sw.links[..i] + [l];
      i := i + 1;
    }
    KeptPrefix(fifo, fifo', from, push, push');
  }

  /** A queue whose first `push` slots are kept reads, from `from` on, as the old slots up to
      `push` followed by the new ones. */
  lemma KeptPrefix(fifo: seq<Switch?>, fifo': seq<Switch?>, from: nat, push: nat, push': nat)
    requires from <= push <= push' <= |fifo'| && push <= |fifo| && fifo'[..push] == fifo[..push]
    ensures fifo'[from..push'] == fifo[from..push] + fifo'[push..push']
  {
    assert fifo'[from..push] == fifo[from..push];
  }

  /** A fresh array of `n` slots starting with the elements of `a`, the rest nil. */
  method Grown(a: array<Link?>, n: nat) returns (b: array<Link?>)
    requires a.Length <= n
    ensures fresh(b) && b.Length == n && b[..a.Length] == a[..]
  {
    b := new Link?[n](_ => null);
    var i := 0;
    while i < a.Length
      invariant 0 <= i <= a.Length
      invariant b[..i] == a[..i]
      modifies b
    {
      b[i] := a[i];
      i := i + 1;
    }
  }

  /** Every switch of `net` is wired into `net`. */
  ghost predicate Closed(net: set<Switch>)
    reads net`lidx, net`links, set s | s in net :: s.links
  {
    forall s {:trigger Wired(s, net)} :: s in net ==> Wired(s, net)
  }

  /** `s` is well formed and its links lead to switches of `net`. */
  ghost predicate Wired(s: Switch, net: set<Switch>)
    reads s`lidx, s`links, s.links
  {
    s.Valid() && forall i :: 0 <= i < s.lidx ==> s.links[i].forward in net
  }

  /** `x` is visited, or costs no more than `c` and neither hosts nor is the target. */
  ghost predicate Relaxed(x: Switch, c: int, target: string)
    reads x`visited, x`cost, x`hosts, x`id
  {
    x.visited || (x.cost <= c && !x.HasHost(target) && x.id != target)
  }

  /** `x` points back over a link with room of `from` that leads to it. */
  ghost predicate Reached(x: Switch, from: Switch, room: Link -> bool)
    reads x`prev, x`plink, from`lidx, from`links, from.links
  {
    x.prev == from && 0 <= x.plink < from.lidx <= from.links.Length &&
    from.links[x.plink] != null && from.links[x.plink].forward == x && room(from.links[x.plink])
  }
}
