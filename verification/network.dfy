/** Helpers of the network manager (managers/network.go): the configuration it reads, the
    per-user fence cache, the switch queue map, endpoint names, the link table and the
    bandwidth arithmetic (discount, link headroom). */
module Network {
  import opened Wrappers
  import opened Strs
  import opened Nums

  // ---- configuration ---------------------------------------------------------------------

  /** Configuration data: section name to key to value (a key not present is Go's nil). */
  type Config = map<string, map<string, string>>

  datatype NetCfg = NetCfg(
    discount: int, relaxed: bool, refresh: int, maxLinkCap: int, mlagPaths: bool,
    findAllPaths: bool, linkHeadroom: int, linkAlarmThresh: int, defUlCap: int,
    phostSuffix: Option<string>, topoFile: Option<string>)

  /** The value of `key` in section `sec`, when both are present. */
  function Get(cfg: Config, sec: string, key: string): Option<string>
  {
    if sec in cfg && key in cfg[sec] then Some(cfg[sec][key]) else None
  }

  /** An integer setting of the "network" section read with `clike.Atoi`, else `dflt`. */
  function IntSetting(cfg: Config, key: string, dflt: int): int
  {
    match Get(cfg, "network", key)
    case Some(t) => Atoll(t)
    case None => dflt
  }

  predicate IsTrueText(p: string) { p == "true" || p == "True" || p == "TRUE" }

  /** The `find_paths` setting as (find all paths, use mlag paths): "all", "shortest" or
      "mlag"; anything else is reported and treated as "mlag". */
  function FindPaths(p: string): (r: (bool, bool))
    ensures r.0 <==> p == "all"
    ensures r.1 <==> p != "all" && p != "shortest"
  {
    match p
    case "all" => (true, false)
    case "shortest" => (false, false)
    case _ => (false, true)
  }

  /** `mk_net_cfg`: defaults first, then each setting that is present overrides its field.
      The deprecated "all_paths" key only clears `findAllPaths`, and "verbose" sets the
      logging level, which is not modelled. */
  method MkNetCfg(cfg: Config) returns (nc: NetCfg)
    ensures nc.discount >= 0 && nc.discount == Max(0, IntSetting(cfg, "discount", 0))
    ensures nc.relaxed <==> Get(cfg, "network", "relaxed").Some? && IsTrueText(Get(cfg, "network", "relaxed").value)
    ensures nc.refresh == IntSetting(cfg, "refresh", 30)
    ensures nc.maxLinkCap == IntSetting(cfg, "link_max_cap", 0)
    ensures nc.findAllPaths <==> Get(cfg, "network", "find_paths") == Some("all")
    ensures !nc.mlagPaths <==> Get(cfg, "network", "find_paths") in {Some("all"), Some("shortest")}
    ensures nc.linkHeadroom == IntSetting(cfg, "link_headroom", 0)
    ensures nc.linkAlarmThresh == IntSetting(cfg, "link_alarm", 0)
    ensures nc.defUlCap == IntSetting(cfg, "user_link_cap", -1)
    ensures nc.phostSuffix == Get(cfg, "fqmgr", "phost_suffix")
    ensures nc.topoFile == Get(cfg, "default", "static_phys_graph")
  {
    var discount, relaxed, refresh, maxLinkCap, mlagPaths, findAllPaths := 0, false, 30, 0, true, false;
    var linkHeadroom, linkAlarmThresh, defUlCap := 0, 0, -1;
    var phostSuffix: Option<string>, topoFile: Option<string> := None, None;
    if "default" in cfg {
      topoFile := Get(cfg, "default", "static_phys_graph");
    }
    if "fqmgr" in cfg && "phost_suffix" in cfg["fqmgr"] {
      phostSuffix := Some(cfg["fqmgr"]["phost_suffix"]);
    }
    if "network" in cfg {
      var d := ReadInt(cfg, "discount", discount);
      if d < 0 {
        discount := 0;
      } else {
        discount := d;
      }
      if "relaxed" in cfg["network"] {
        relaxed := IsTrueText(cfg["network"]["relaxed"]);
      }
      refresh := ReadInt(cfg, "refresh", refresh);
      maxLinkCap := ReadInt(cfg, "link_max_cap", maxLinkCap);
      findAllPaths, mlagPaths := ReadPaths(cfg, findAllPaths, mlagPaths);
      linkHeadroom := ReadInt(cfg, "link_headroom", linkHeadroom);
      linkAlarmThresh := ReadInt(cfg, "link_alarm", linkAlarmThresh);
      defUlCap := ReadInt(cfg, "user_link_cap", defUlCap);
    }
    nc := NetCfg(discount, relaxed, refresh, maxLinkCap, mlagPaths, findAllPaths, linkHeadroom,
                 linkAlarmThresh, defUlCap, phostSuffix, topoFile);
  }

  /** One integer setting of the "network" section: `clike.Atoi` of it when it is present,
      else the current value. */
  method ReadInt(cfg: Config, key: string, cur: int) returns (v: int)
    ensures v == IntSetting(cfg, key, cur)
  {
    v := cur;
    if "network" in cfg && key in cfg["network"] {
      v := Atoll(cfg["network"][key]);
    }
  }

  /** The path settings: a deprecated "all_paths" clears the all-paths flag, then a
      "find_paths" setting decides both flags. */
  method ReadPaths(cfg: Config, all0: bool, mlag0: bool) returns (all: bool, mlag: bool)
    ensures Get(cfg, "network", "find_paths").Some? ==> (all, mlag) == FindPaths(Get(cfg, "network", "find_paths").value)
    ensures Get(cfg, "network", "find_paths").None? ==> mlag == mlag0 && (all <==> all0 && Get(cfg, "network", "all_paths").None?)
  {
    all, mlag := all0, mlag0;
    if "network" in cfg && "all_paths" in cfg["network"] {
      all := false;
    }
    if "network" in cfg && "find_paths" in cfg["network"] {
      all, mlag := FindPaths(cfg["network"]["find_paths"]).0, FindPaths(cfg["network"]["find_paths"]).1;
    }
  }

  function Max(a: int, b: int): int { if a >= b then a else b }

  /** 10 GiB: the link capacity used when none is configured. */
  const DEF_MAX_LINK_CAP: int := 1024 * 1024 * 1024 * 10

  /** The sanity rules `Network_mgr` applies to the configuration at start: a refresh period
      under 15 seconds becomes 15, and a link capacity that is not positive becomes 10 GiB. */
  function Sanitise(nc: NetCfg): (r: NetCfg)
    ensures r.refresh >= 15 && r.maxLinkCap > 0
    ensures nc.refresh >= 15 ==> r.refresh == nc.refresh
    ensures nc.maxLinkCap > 0 ==> r.maxLinkCap == nc.maxLinkCap
    ensures nc.maxLinkCap <= 0 ==> r.maxLinkCap == DEF_MAX_LINK_CAP
    ensures r.(refresh := nc.refresh, maxLinkCap := nc.maxLinkCap) == nc
  {
    nc.(refresh := if nc.refresh < 15 then 15 else nc.refresh,
        maxLinkCap := if nc.maxLinkCap <= 0 then DEF_MAX_LINK_CAP else nc.maxLinkCap)
  }

  // ---- user fences -----------------------------------------------------------------------

  /** A user's link capacity boundary: its user name and the three limits given to
      `Mk_fence` (the Fence type itself is not part of this model; `Copy` renames). */
  datatype Fence = Fence(name: string, limits: (int, int, int))

  /** The generic default made when none is configured: 100% of every link. */
  const GENERIC_FENCE: Fence := Fence("default", (100, 0, 0))

  /** The fences `Network_mgr` starts with: a "default" fence exactly when a user link
      capacity is configured (`user_link_cap` >= 0). */
  function StartLimits(nc: NetCfg): (r: map<string, Fence>)
    ensures r.Keys <= {"default"}
    ensures "default" in r <==> nc.defUlCap >= 0
    ensures "default" in r ==> r["default"].limits.0 == nc.defUlCap
  {
    if nc.defUlCap >= 0 then map["default" := Fence("default", (nc.defUlCap, 0, 0))] else map[]
  }

  /** `get_fence(usr)` over the fence table: the fence returned and the table afterwards. A
      user's own fence is returned as it is; otherwise the default is copied under the user's
      name and cached for the user; with no default a generic one is cached as the default
      and a copy of it is returned (not cached for the user). A nil user is "nobody", whose
      own entry is never looked up. */
  function FenceLookup(limits: map<string, Fence>, usr: Option<string>): (r: (Fence, map<string, Fence>))
    ensures usr.Some? && usr.value in limits ==> r == (limits[usr.value], limits)
    ensures !(usr.Some? && usr.value in limits) ==>
      && r.0.name == usr.GetOr("nobody")
      && r.0.limits == (if "default" in limits then limits["default"] else GENERIC_FENCE).limits
      && "default" in r.1
    ensures r.1.Keys >= limits.Keys
    ensures forall k :: k in limits && k != usr.GetOr("nobody") ==> r.1[k] == limits[k]
  {
    var u := usr.GetOr("nobody");
    if usr.Some? && usr.value in limits then (limits[usr.value], limits)
    else if "default" in limits then
      var f := limits["default"].(name := u);
      (f, limits[u := f])
    else (GENERIC_FENCE.(name := u), limits["default" := GENERIC_FENCE])
  }

  /** Looking a user up again gives the same fence: the first lookup caches what the second
      one finds. */
  lemma FenceStable(limits: map<string, Fence>, usr: Option<string>)
    ensures FenceLookup(FenceLookup(limits, usr).1, usr).0 == FenceLookup(limits, usr).0
  {
  }

  /** After a lookup for a user when a default exists, the user has a fence of their own
      and later changes to the default no longer reach them. */
  lemma FenceCached(limits: map<string, Fence>, u: string)
    requires "default" in limits
    ensures var r := FenceLookup(limits, Some(u)); u in r.1 && r.1[u] == r.0
  {
  }

  // ---- the queue map ---------------------------------------------------------------------

  /** A queue token `qlist2map` keeps: non-empty and, for endpoints only, not a middle link
      queue ("priority-in"/"priority-out"). */
  predicate Kept(t: string, epOnly: bool)
  {
    t != "" && !(epOnly && Contains(t, "priority-"))
  }

  /** The tokens of one space-separated queue list that are kept. */
  function QTokens(qlist: string, epOnly: bool): (r: set<string>)
    ensures forall t :: t in r ==> t != ""
  {
    set t | t in Split(qlist, ' ') && Kept(t, epOnly)
  }

  /** The kept tokens of several queue lists. */
  function AllTokens(qlists: seq<string>, epOnly: bool): set<string>
  {
    if qlists == [] then {} else AllTokens(qlists[..|qlists| - 1], epOnly) + QTokens(qlists[|qlists| - 1], epOnly)
  }

  /** For endpoints only, the tokens are a subset of all tokens. */
  lemma {:induction false} EpOnlySubset(qlists: seq<string>)
    ensures AllTokens(qlists, true) <= AllTokens(qlists, false)
  {
    if qlists != [] {
      EpOnlySubset(qlists[..|qlists| - 1]);
    }
  }

  /** Every token of every list is in the map unless it was dropped as a middle queue. */
  lemma {:induction false} AllTokensHas(qlists: seq<string>, epOnly: bool, i: nat, t: string)
    requires i < |qlists| && t in Split(qlists[i], ' ') && Kept(t, epOnly)
    ensures t in AllTokens(qlists, epOnly)
  {
    if i < |qlists| - 1 {
      AllTokensHas(qlists[..|qlists| - 1], epOnly, i, t);
    }
  }

  /** `qlist2map`: marks each kept token of `qlist` in the map with 1. */
  method QList2Map(qmap: map<string, int>, qlist: string, epOnly: bool) returns (r: map<string, int>)
    ensures r.Keys == qmap.Keys + QTokens(qlist, epOnly)
    ensures forall t :: t in QTokens(qlist, epOnly) ==> r[t] == 1
    ensures forall t :: t in qmap && t !in QTokens(qlist, epOnly) ==> r[t] == qmap[t]
  {
    var qdata := Split(qlist, ' ');
    r := qmap;
    for i := 0 to |qdata|
      invariant r.Keys == qmap.Keys + (set t | t in qdata[..i] && Kept(t, epOnly))
      invariant forall t :: t in qdata[..i] && Kept(t, epOnly) ==> r[t] == 1
      invariant forall t :: t in qmap && !(t in qdata[..i] && Kept(t, epOnly)) ==> r[t] == qmap[t]
    {
      assert qdata[..i + 1] == qdata[..i] + [qdata[i]];
      if epOnly {
        if qdata[i] != "" && !Contains(qdata[i], "priority-") {
          r := r[qdata[i] := 1];
        }
      } else {
        if qdata[i] != "" {
          r := r[qdata[i] := 1];
        }
      }
    }
    assert qdata[..|qdata|] == qdata;
  }

  /** `gen_queue_map`: the queue lists of all links and virtual links (each link's
      `Queues2str` at the given time, in the table's order) reduced to their distinct kept
      tokens, listed in the map's (unspecified) order. */
  method GenQueueMap(qlists: seq<string>, epOnly: bool) returns (qmap: seq<string>)
    ensures forall t :: t in qmap <==> t in AllTokens(qlists, epOnly)
    ensures forall a, b :: 0 <= a < b < |qmap| ==> qmap[a] != qmap[b]
  {
    var seen: map<string, int> := map[];
    for i := 0 to |qlists|
      invariant seen.Keys == AllTokens(qlists[..i], epOnly)
    {
      seen := QList2Map(seen, qlists[i], epOnly);
      assert qlists[..i + 1][..i] == qlists[..i];
    }
    assert qlists[..|qlists|] == qlists;
    var left := seen.Keys;
    qmap := [];
    while left != {}
      invariant left <= seen.Keys
      invariant forall t :: t in qmap ==> t in seen && t !in left
      invariant forall t :: t in seen ==> t in left || t in qmap
      invariant forall a, b :: 0 <= a < b < |qmap| ==> qmap[a] != qmap[b]
      decreases left
    {
      var data :| data in left;
      qmap := qmap + [data];
      left := left - {data};
    }
  }

  // ---- endpoints, links ------------------------------------------------------------------

  /** The uuid of an endpoint name: the second '/'-token of "project/uuid", else the name. */
  function Uuid(epname: string): string
  {
    var tokens := Split(epname, '/');
    if |tokens| > 1 then tokens[1] else tokens[0]
  }

  /** A link of the graph as `Mk_link` records it (the Link type itself is not part of this
      model). */
  datatype NetLink = NetLink(id: string, src: string, dst: string, capacity: int, alarm: int, mlag: Option<string>)

  /** The key of the link from switch `ssw` to switch `dsw`. */
  function LinkId(ssw: string, dsw: string): string { ssw + "-" + dsw }

  /** A new link joins its mlag group (made on first use); each member is named by its link. */
  function JoinMlag(mlags: map<string, seq<string>>, mlag: Option<string>, id: string): (r: map<string, seq<string>>)
    ensures mlag.None? ==> r == mlags
    ensures mlag.Some? ==> r.Keys == mlags.Keys + {mlag.value} && r[mlag.value] == (if mlag.value in mlags then mlags[mlag.value] else []) + [id]
  {
    match mlag
    case None => mlags
    case Some(m) => mlags[m := (if m in mlags then mlags[m] else []) + [id]]
  }

  /** `find_link` over the link and mlag tables: the link returned and both tables after. */
  function LinkLookup(links: map<string, NetLink>, mlags: map<string, seq<string>>, ssw: string, dsw: string,
                      capacity: int, alarm: int, mlag: Option<string>): (r: (NetLink, map<string, NetLink>, map<string, seq<string>>))
    ensures var id := LinkId(ssw, dsw);
      && r.1.Keys == links.Keys + {id} && r.1[id] == r.0
      && (forall k :: k in links ==> r.1[k] == links[k])
      && (id in links ==> r.2 == mlags)
  {
    var id := LinkId(ssw, dsw);
    if id in links then (links[id], links, mlags)
    else
      var l := NetLink(id, ssw, dsw, capacity, alarm, mlag);
      (l, links[id := l], JoinMlag(mlags, mlag, id))
  }

  /** A link once made is reused: asking again for the same switches (with any capacity)
      returns the same link and changes neither table. */
  lemma LinkReused(links: map<string, NetLink>, mlags: map<string, seq<string>>, ssw: string, dsw: string,
                   c1: int, a1: int, m1: Option<string>, c2: int, a2: int, m2: Option<string>)
    ensures var r1 := LinkLookup(links, mlags, ssw, dsw, c1, a1, m1);
      LinkLookup(r1.1, r1.2, ssw, dsw, c2, a2, m2) == r1
  {
  }

  /** The network's tables that the modelled helpers read and update. */
  class Net {
    var limits: map<string, Fence>
    var links: map<string, NetLink>
    var mlags: map<string, seq<string>>
    var endpts: set<string>

    /** `mk_network(true)` given the fences and endpoint uuids the network is built with. */
    constructor (limits0: map<string, Fence>, endpts0: set<string>)
      ensures limits == limits0 && links == map[] && mlags == map[] && endpts == endpts0
    {
      limits, links, mlags, endpts := limits0, map[], map[], endpts0;
    }

    /** `get_fence`. */
    method GetFence(usr: Option<string>) returns (fence: Fence)
      modifies this`limits
      ensures (fence, limits) == FenceLookup(old(limits), usr)
    {
      var found := false;
      var u := "nobody";
      if usr.Some? {
        u := usr.value;
        if usr.value in limits {
          fence, found := limits[usr.value], true;
        }
      }
      if !found {
        if "default" in limits {
          fence := limits["default"].(name := u);
          limits := limits[u := fence];
        } else {
          fence := GENERIC_FENCE;
          limits := limits["default" := fence];
          fence := fence.(name := u);
        }
      }
    }

    /** `find_link` without a link to share its allotment with. */
    method FindLink(ssw: string, dsw: string, capacity: int, alarm: int, mlag: Option<string>) returns (l: NetLink)
      modifies this`links, this`mlags
      ensures (l, links, mlags) == LinkLookup(old(links), old(mlags), ssw, dsw, capacity, alarm, mlag)
    {
      var id := LinkId(ssw, dsw);
      if id in links {
        l := links[id];
        return;
      }
      l := NetLink(id, ssw, dsw, capacity, alarm, mlag);
      if mlag.Some? {
        if mlag.value !in mlags {
          assert [] + [id] == [id];
          mlags := mlags[mlag.value := [id]];
        } else {
          mlags := mlags[mlag.value := mlags[mlag.value] + [id]];
        }
      }
      links := links[id := l];
    }

    /** `defrock_epname`: "" for an empty name; a "!/" external name as it is; otherwise the
        uuid when it is a known endpoint, else "". A one-character name panics, as slicing its
        first two characters is out of range. */
    function Defrock(epname: string): (r: Go<string>)
      reads this
      ensures r.Panic? <==> |epname| == 1
      ensures epname == "" ==> r == Value("")
      ensures |epname| >= 2 && epname[..2] == "!/" ==> r == Value(epname)
      ensures |epname| >= 2 && epname[..2] != "!/" ==>
        && (r == Value("") <==> Uuid(epname) !in endpts || Uuid(epname) == "")
        && (r != Value("") ==> r == Value(Uuid(epname)) && r.v in endpts && '/' !in r.v)
    {
      if epname == "" then Value("")
      else if |epname| < 2 then Panic
      else if epname[..2] == "!/" then Value(epname)
      else
        var uuid := Uuid(epname);
        assert '/' !in uuid;
        if uuid in endpts then Value(uuid) else Value("")
    }
  }

  // ---- bandwidth arithmetic --------------------------------------------------------------

  /** The configured discount applied to a requested bandwidth: 1..100 is a percentage off,
      more than 100 an amount off; either way the result is at least 10. No discount leaves
      the bandwidth as it is. A d% cut of a non-negative bandwidth removes the share of d%
      rounded down, so what is left is the (100-d)% share rounded up, raised to 10 when that
      share is at most 10. */
  function Discount(bw: int, d: int): (r: int)
    ensures d <= 0 ==> r == bw
    ensures d > 0 ==> r >= 10
    ensures d > 100 ==> r == Max(10, bw - d)
    ensures 0 < d <= 100 && bw >= 0 ==> (r == 10 <==> bw * (100 - d) <= 1000)
    ensures 0 < d <= 100 && bw >= 0 && r > 10 ==> (r - 1) * 100 < bw * (100 - d) <= r * 100
  {
    if d <= 0 then bw
    else if d < 101 then
      var b := bw - Quot(bw * d, 100);
      CeilShare(bw, d);
      if b < 10 then 10 else b
    else
      var b := bw - d;
      if b < 10 then 10 else b
  }

  /** What a d% cut leaves of a non-negative bandwidth is the rest of it divided by 100 and
      rounded up. */
  lemma CeilShare(bw: int, d: int)
    requires 0 < d <= 100
    ensures bw >= 0 ==> var b := bw - Quot(bw * d, 100);
      (b - 1) * 100 < bw * (100 - d) <= b * 100 && (b <= 10 <==> bw * (100 - d) <= 1000)
  {
    if bw >= 0 {
      var p := bw * d;
      assert p >= 0;
      var q := p / 100;
      assert Quot(p, 100) == q;
      assert q * 100 <= p < q * 100 + 100;
      assert bw * (100 - d) == bw * 100 - p;
    }
  }

  /** A larger percentage never leaves more, and a percentage cut never raises a bandwidth of
      10 or more. */
  lemma DiscountShare(bw: int, d1: int, d2: int)
    requires bw >= 0 && 0 < d1 <= d2 <= 100
    ensures Discount(bw, d2) <= Discount(bw, d1)
    ensures bw >= 10 ==> Discount(bw, d1) <= bw
  {
    var p1, p2 := bw * d1, bw * d2;
    assert p2 - p1 == bw * (d2 - d1);
    assert 0 <= p1 <= p2;
    var q1, q2 := p1 / 100, p2 / 100;
    assert Quot(p1, 100) == q1 && Quot(p2, 100) == q2;
    assert q1 <= q2;
  }

  /** `REQ_SETDISC`: a new discount read from the text,
      a negative one taken as 0; no data leaves the current discount. */
  function SetDiscount(cur: int, data: Option<string>): (d: int)
    ensures data.None? ==> d == cur
    ensures data.Some? && Atoll(data.value) >= 0 ==> d == Atoll(data.value)
    ensures data.Some? && Atoll(data.value) < 0 ==> d == 0
  {
    match data
    case None => cur
    case Some(t) => Max(0, Atoll(t))
  }

  /** The share of each link's capacity `build` offers: 100 less the headroom percentage when
      that is strictly between 0 and 100. Otherwise the factor stays at its initial 1, so a
      network without headroom offers 1% of every link. */
  function HrFactor(headroom: int): (f: int)
    ensures 1 <= f <= 99
    ensures 0 < headroom < 100 ==> f == 100 - headroom
    ensures !(0 < headroom < 100) ==> f == 1
  {
    if headroom > 0 && headroom < 100 then 100 - headroom else 1
  }

  /** The capacity `build` gives a link from the topology: the configured maximum when the
      topology states none, scaled by the headroom factor and rounded down (Go's division of
      a non-negative product). */
  function LinkCapacity(cap: int, maxLinkCap: int, headroom: int): (c: int)
    requires maxLinkCap > 0
    ensures c >= 0
    ensures cap > 0 ==> c * 100 <= cap * HrFactor(headroom) < c * 100 + 100
    ensures cap <= 0 ==> c * 100 <= maxLinkCap * HrFactor(headroom) < c * 100 + 100
  {
    var base := if cap <= 0 then maxLinkCap else cap;
    var p := base * HrFactor(headroom);
    assert p >= 0 && Quot(p, 100) == p / 100;
    Quot(p, 100)
  }

  /** With a headroom of h percent a link offers (100-h)% of its capacity, rounded down, and
      so never more than its capacity. */
  lemma HeadroomShare(cap: int, maxLinkCap: int, h: int)
    requires maxLinkCap > 0 && cap > 0 && 0 < h < 100
    ensures LinkCapacity(cap, maxLinkCap, h) <= cap
    ensures LinkCapacity(cap, maxLinkCap, h) * 100 <= cap * (100 - h) < LinkCapacity(cap, maxLinkCap, h) * 100 + 100
  {
  }

  /** Without a headroom setting every link is cut to a hundredth of its capacity: a link of
      10 GiB offers about 107 MB. */
  lemma NoHeadroomHundredth(cap: int, maxLinkCap: int)
    requires maxLinkCap > 0 && cap >= 100
    ensures LinkCapacity(cap, maxLinkCap, 0) == cap / 100 < cap
    ensures LinkCapacity(DEF_MAX_LINK_CAP, maxLinkCap, 0) == 107374182
  {
  }
}
