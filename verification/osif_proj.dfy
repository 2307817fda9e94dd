/** One OpenStack project's translation maps (managers/osif_proj.go): refreshing them from
    OpenStack, finding a VM by name, address or id, choosing its gateway, and the parsing of
    a host-information request. What OpenStack returns is passed in as values; subnet
    membership is an oracle. */
module OsifProj {
  import opened Wrappers
  import opened Strs

  /** The project's maps, as a value. A Go map entry holding nil is not modelled: an entry
      is present or absent. */
  datatype ProjMaps = ProjMaps(
    vmid2ip: map<string, string>, ip2vmid: map<string, string>, ip2vm: map<string, string>,
    vm2ip: map<string, string>, vmid2host: map<string, string>, ip2mac: map<string, string>,
    gwmap: map<string, string>, ip2fip: map<string, string>, fip2ip: map<string, string>,
    gw2cidr: map<string, string>)

  /** The VM maps `Mk_vm_maps` builds. */
  datatype VmMaps = VmMaps(vmid2ip: map<string, string>, ip2vmid: map<string, string>, vm2ip: map<string, string>,
                           vmid2host: map<string, string>, vmip2vm: map<string, string>)

  /** What one refresh gets back from OpenStack: the VM maps, the floating-ip maps
      (fip2ip, ip2fip), the MAC map, the gateway map and the gateway-to-cidr map (which may
      come back nil). */
  datatype Fetched = Fetched(vm: Result<VmMaps>, fip: Result<(map<string, string>, map<string, string>)>,
                             mac: Result<map<string, string>>, gw: Result<map<string, string>>,
                             sn: Result<Option<map<string, string>>>)

  /** The maps after a refresh. The five VM maps are replaced together and only when all
      five came back non-empty; the others are replaced only when non-empty (and the
      gateway-cidr map when it came back at all). When both floating-ip maps are non-empty,
      ip2fip is set to the new ip2fip and then at once to the new fip2ip, and fip2ip is left
      as it was. */
  function Refreshed(m: ProjMaps, f: Fetched): ProjMaps
  {
    var vm := VmComplete(f);
    ProjMaps(
      vmid2ip := if vm then f.vm.value.vmid2ip else m.vmid2ip,
      ip2vmid := if vm then f.vm.value.ip2vmid else m.ip2vmid,
      ip2vm := if vm then f.vm.value.vmip2vm else m.ip2vm,
      vm2ip := if vm then f.vm.value.vm2ip else m.vm2ip,
      vmid2host := if vm then f.vm.value.vmid2host else m.vmid2host,
      ip2mac := if f.mac.Ok? && |f.mac.value| > 0 then f.mac.value else m.ip2mac,
      gwmap := if f.gw.Ok? && |f.gw.value| > 0 then f.gw.value else m.gwmap,
      ip2fip := if f.fip.Ok? && |f.fip.value.1| > 0 && |f.fip.value.0| > 0 then f.fip.value.0 else m.ip2fip,
      fip2ip := m.fip2ip,
      gw2cidr := if f.sn.Ok? && f.sn.value.Some? then f.sn.value.value else m.gw2cidr)
  }

  /** All five VM maps came back, none of them empty. */
  predicate VmComplete(f: Fetched)
  {
    f.vm.Ok? && |f.vm.value.vmip2vm| > 0 && |f.vm.value.vmid2ip| > 0 && |f.vm.value.ip2vmid| > 0 &&
    |f.vm.value.vm2ip| > 0 && |f.vm.value.vmid2host| > 0
  }

  /** The error `refresh_maps` returns: the last failure among the VM, floating-ip and MAC
      fetches (a failing gateway fetch is not reported). */
  function RefreshErr(f: Fetched): (r: Option<string>)
    ensures r.None? <==> f.vm.Ok? && f.fip.Ok? && f.mac.Ok?
  {
    if f.mac.Err? then Some(f.mac.msg)
    else if f.fip.Err? then Some(f.fip.msg)
    else if f.vm.Err? then Some(f.vm.msg)
    else None
  }

  /** Whether the credentials are marked expired (any fetch failed, or no cidr map). */
  function Expires(f: Fetched): bool
  {
    f.vm.Err? || f.fip.Err? || f.mac.Err? || f.gw.Err? || f.sn.Err? || f.sn.value.None?
  }

  ghost predicate VmMapsFilled(m: ProjMaps)
  {
    |m.vmid2ip| > 0 && |m.ip2vmid| > 0 && |m.ip2vm| > 0 && |m.vm2ip| > 0 && |m.vmid2host| > 0
  }

  /** A refresh never empties the VM maps: they are all replaced from a complete fetch, or
      all kept. */
  lemma RefreshVmAllOrNothing(m: ProjMaps, f: Fetched)
    ensures var r := Refreshed(m, f);
      (r.vmid2ip, r.ip2vmid, r.ip2vm, r.vm2ip, r.vmid2host) == (m.vmid2ip, m.ip2vmid, m.ip2vm, m.vm2ip, m.vmid2host) ||
      (f.vm.Ok? && (r.vmid2ip, r.ip2vmid, r.ip2vm, r.vm2ip, r.vmid2host) ==
         (f.vm.value.vmid2ip, f.vm.value.ip2vmid, f.vm.value.vmip2vm, f.vm.value.vm2ip, f.vm.value.vmid2host))
    ensures VmMapsFilled(m) ==> VmMapsFilled(Refreshed(m, f))
    ensures |m.ip2mac| > 0 ==> |Refreshed(m, f).ip2mac| > 0
    ensures |m.gwmap| > 0 ==> |Refreshed(m, f).gwmap| > 0
  {
  }

  /** The floating-ip maps: after a complete fetch ip2fip holds the fip-to-ip map, and
      fip2ip is never refreshed. */
  lemma RefreshFloatingIps(m: ProjMaps, f: Fetched)
    requires f.fip.Ok? && |f.fip.value.0| > 0 && |f.fip.value.1| > 0
    ensures Refreshed(m, f).ip2fip == f.fip.value.0
    ensures Refreshed(m, f).fip2ip == m.fip2ip
  {
  }

  /** Outputs of `suss_info`. */
  datatype Info = Info(name: Option<string>, id: Option<string>, ip4: Option<string>, fip4: Option<string>,
                       mac: Option<string>, gw: Option<string>, phost: Option<string>, gwmap: map<string, string>)

  function Lookup(m: map<string, string>, k: string): (r: Option<string>)
    ensures r.Some? <==> k in m
    ensures r.Some? ==> r.value == m[k]
  {
    if k in m then Some(m[k]) else None
  }

  /** The gateway key may be considered for an address of `project`: the key has no
      project, or the same one, or the address has none. */
  predicate Eligible(k: string, project: string)
  {
    |Split(k, '/')| == 1 || Split(k, '/')[0] == project || project == ""
  }

  /** `ip2gw(ip)` walking the gateway keys in `order` (Go's map order): the first eligible
      gateway whose cidr holds the address. A cidr without '/' panics when its bit count is
      indexed. */
  function Ip2Gw(gw2cidr: map<string, string>, ip: string, order: seq<string>,
                 inSubnet: (string, string, string) -> bool): (r: Go<Option<string>>)
  {
    var toks := Split(ip, '/');
    var addr := if |toks| > 1 then toks[1] else toks[0];
    var project := if |toks| > 1 then toks[0] else "";
    GwScan(gw2cidr, addr, project, order, inSubnet)
  }

  /** The gateway's cidr ("net/bits") holds the address. */
  predicate Hit(gw2cidr: map<string, string>, addr: string, k: string, inSubnet: (string, string, string) -> bool)
  {
    k in gw2cidr && |Split(gw2cidr[k], '/')| > 1 && inSubnet(addr, Split(gw2cidr[k], '/')[0], Split(gw2cidr[k], '/')[1])
  }

  function GwScan(gw2cidr: map<string, string>, addr: string, project: string, order: seq<string>,
                  inSubnet: (string, string, string) -> bool): (r: Go<Option<string>>)
    ensures r.Value? && r.v.Some? ==> r.v.value in order && Eligible(r.v.value, project) && Hit(gw2cidr, addr, r.v.value, inSubnet)
    ensures r == Value(None) ==> forall i :: 0 <= i < |order| && order[i] in gw2cidr && Eligible(order[i], project) ==>
      |Split(gw2cidr[order[i]], '/')| > 1 && !Hit(gw2cidr, addr, order[i], inSubnet)
    ensures (forall k :: k in gw2cidr ==> k in order) && r == Value(None) ==>
      forall k :: k in gw2cidr && Eligible(k, project) ==> !Hit(gw2cidr, addr, k, inSubnet)
  {
    if order == [] then Value(None)
    else
      var k := order[0];
      var rest := GwScan(gw2cidr, addr, project, order[1..], inSubnet);
      assert forall i :: 1 <= i < |order| ==> order[i] == order[1..][i - 1];
      if k !in gw2cidr || !Eligible(k, project) then rest
      else
        var c := Split(gw2cidr[k], '/');
        if |c| < 2 then Panic
        else if inSubnet(addr, c[0], c[1]) then Value(Some(k))
        else rest
  }

  /** The name, id and address a search finds: as a VM name, else as an address, else as an
      id, else as "project/id". */
  function Suss(m: ProjMaps, search: string): (r: (Option<string>, Option<string>, Option<string>))
  {
    if search in m.vm2ip then (Some(search), None, Some(m.vm2ip[search]))
    else if search in m.ip2vmid then (Lookup(m.ip2vm, search), Some(m.ip2vmid[search]), Some(search))
    else if search in m.vmid2ip then (Lookup(m.ip2vm, m.vmid2ip[search]), Some(search), Some(m.vmid2ip[search]))
    else
      var toks := Split(search, '/');
      var id := if |toks| > 1 then toks[1] else toks[0];
      if id in m.vmid2ip then (Lookup(m.ip2vm, m.vmid2ip[id]), Some(id), Some(m.vmid2ip[id]))
      else (None, Some(id), None)
  }

  /** `suss_info(search)`. Once a name and address are found, the floating address, MAC,
      gateway and physical host are looked up and the gateway map is copied; an id that is
      still unknown then panics when the host map is indexed with it. */
  function SussInfo(m: ProjMaps, search: string, order: seq<string>, inSubnet: (string, string, string) -> bool)
    : (r: Go<Info>)
    ensures r.Value? && (r.v.name.None? || r.v.ip4.None?) ==>
      r.v.fip4.None? && r.v.mac.None? && r.v.gw.None? && r.v.phost.None? && r.v.gwmap == map[]
    ensures r.Value? && r.v.name.Some? && r.v.ip4.Some? ==>
      r.v.gwmap == m.gwmap && r.v.mac == Lookup(m.ip2mac, r.v.ip4.value) && r.v.fip4 == Lookup(m.ip2fip, r.v.ip4.value)
    ensures var (name, id0, ip4) := Suss(m, search);
      (name.None? || ip4.None?) ==> r.Value? && r.v.name == name && r.v.id == id0 && r.v.ip4 == ip4
    ensures var (name, id0, ip4) := Suss(m, search);
      name.Some? && ip4.Some? ==>
        var id := if id0.Some? then id0 else Lookup(m.ip2vmid, ip4.value);
        var gw := Ip2Gw(m.gw2cidr, ip4.value, order, inSubnet);
        && (r.Panic? <==> id.None? || gw.Panic?)
        && (r.Value? ==> r.v.name == name && r.v.ip4 == ip4 && r.v.id == id && r.v.gw == gw.v &&
                         r.v.phost == Lookup(m.vmid2host, id.value))
  {
    var (name, id0, ip4) := Suss(m, search);
    if name.None? || ip4.None? then Value(Info(name, id0, ip4, None, None, None, None, map[]))
    else
      var id := if id0.Some? then id0 else Lookup(m.ip2vmid, ip4.value);
      if id.None? then Panic
      else match Ip2Gw(m.gw2cidr, ip4.value, order, inSubnet)
        case Panic => Panic
        case Value(gw) =>
          Value(Info(name, id, ip4, Lookup(m.ip2fip, ip4.value), Lookup(m.ip2mac, ip4.value), gw,
                     Lookup(m.vmid2host, id.value), m.gwmap))
  }

  /** The maps agree about one VM: its name, id and address lead to each other. */
  ghost predicate Knows(m: ProjMaps, name: string, id: string, ip: string)
  {
    name in m.vm2ip && m.vm2ip[name] == ip && ip in m.ip2vm && m.ip2vm[ip] == name &&
    ip in m.ip2vmid && m.ip2vmid[ip] == id && id in m.vmid2ip && m.vmid2ip[id] == ip
  }

  /** A VM is found the same whether searched by name, address, id or "project/id" (each
      search string not being a key of an earlier-tried kind). */
  lemma SussAgrees(m: ProjMaps, name: string, id: string, ip: string, proj: string)
    requires Knows(m, name, id, ip)
    requires ip !in m.vm2ip && id !in m.vm2ip && id !in m.ip2vmid && '/' !in id && '/' !in proj
    requires var s := proj + "/" + id; s !in m.vm2ip && s !in m.ip2vmid && s !in m.vmid2ip
    ensures Suss(m, name).0 == Some(name) && Suss(m, name).2 == Some(ip)
    ensures Suss(m, ip) == (Some(name), Some(id), Some(ip))
    ensures Suss(m, id) == (Some(name), Some(id), Some(ip))
    ensures Suss(m, proj + "/" + id) == (Some(name), Some(id), Some(ip))
  {
    SplitCons(proj, id, '/');
    assert proj + "/" + id == proj + ['/'] + id;
  }

  /** Whichever way a known VM is searched, `suss_info` reports the same: its name, id and
      address, the physical host its id maps to, and the gateway of its address. */
  lemma SussInfoAgrees(m: ProjMaps, name: string, id: string, ip: string, proj: string, order: seq<string>,
                       inSubnet: (string, string, string) -> bool)
    requires Knows(m, name, id, ip)
    requires ip !in m.vm2ip && id !in m.vm2ip && id !in m.ip2vmid && '/' !in id && '/' !in proj
    requires var s := proj + "/" + id; s !in m.vm2ip && s !in m.ip2vmid && s !in m.vmid2ip
    ensures var r := SussInfo(m, name, order, inSubnet);
      && (r.Panic? <==> Ip2Gw(m.gw2cidr, ip, order, inSubnet).Panic?)
      && (r.Value? ==> r.v.name == Some(name) && r.v.id == Some(id) && r.v.ip4 == Some(ip) &&
                       r.v.phost == Lookup(m.vmid2host, id))
    ensures SussInfo(m, ip, order, inSubnet) == SussInfo(m, name, order, inSubnet)
    ensures SussInfo(m, id, order, inSubnet) == SussInfo(m, name, order, inSubnet)
    ensures SussInfo(m, proj + "/" + id, order, inSubnet) == SussInfo(m, name, order, inSubnet)
  {
    SussAgrees(m, name, id, ip, proj);
  }

  /** The translation maps of one project, refreshed from OpenStack. */
  class OsifProject {
    const name: string
    var lastfetch: int
    var vmid2ip: map<string, string>
    var ip2vmid: map<string, string>
    var ip2vm: map<string, string>
    var vm2ip: map<string, string>
    var vmid2host: map<string, string>
    var ip2mac: map<string, string>
    var gwmap: map<string, string>
    var ip2fip: map<string, string>
    var fip2ip: map<string, string>
    var gw2cidr: map<string, string>

    function Maps(): ProjMaps
      reads this
    {
      ProjMaps(vmid2ip, ip2vmid, ip2vm, vm2ip, vmid2host, ip2mac, gwmap, ip2fip, fip2ip, gw2cidr)
    }

    /** `Mk_osif_project(name)`: empty maps, never fetched. */
    constructor (name0: string)
      ensures name == name0 && lastfetch == 0
      ensures Maps() == ProjMaps(map[], map[], map[], map[], map[], map[], map[], map[], map[], map[])
    {
      name := name0;
      lastfetch := 0;
      vmid2ip, ip2vmid, ip2vm, vm2ip, vmid2host := map[], map[], map[], map[], map[];
      ip2mac, gwmap, ip2fip, fip2ip, gw2cidr := map[], map[], map[], map[], map[];
    }

    /** `refresh_maps(creds)` at time `now`, with `seen` the fetch time read before the
        write lock was taken and `f` what OpenStack returned. The reference project "_ref_"
        is never refreshed; a refresh that finds the fetch time changed meanwhile does
        nothing. */
    method RefreshMaps(credsOk: bool, seen: int, f: Fetched, now: int) returns (rerr: Option<string>, expire: bool)
      modifies this
      ensures !credsOk ==> rerr == Some("creds were nil") && !expire && unchanged(this)
      ensures credsOk && (name == "_ref_" || seen != old(lastfetch)) ==> rerr.None? && !expire && unchanged(this)
      ensures credsOk && name != "_ref_" && seen == old(lastfetch) ==>
        Maps() == Refreshed(old(Maps()), f) && lastfetch == now && rerr == RefreshErr(f) && expire == Expires(f)
    {
      if !credsOk {
        return Some("creds were nil"), false;
      }
      rerr, expire := None, false;
      if name != "_ref_" && seen == lastfetch {
        Install(Refreshed(Maps(), f), now);
        rerr, expire := RefreshErr(f), Expires(f);
      }
    }

    /** Replaces every map and records the fetch time. */
    method Install(n: ProjMaps, now: int)
      modifies this
      ensures Maps() == n && lastfetch == now
    {
      vmid2ip, ip2vmid, ip2vm, vm2ip, vmid2host := n.vmid2ip, n.ip2vmid, n.ip2vm, n.vm2ip, n.vmid2host;
      ip2mac, gwmap, ip2fip, fip2ip, gw2cidr := n.ip2mac, n.gwmap, n.ip2fip, n.fip2ip, n.gw2cidr;
      lastfetch := now;
    }

    /** `Get_info(search, creds)` at time `now`: the cached maps are searched only when
        fetched less than 90 seconds ago; when that finds no name, the maps are refreshed
        (from `f`) and, if the refresh reported no error, searched again. */
    method GetInfo(search: string, credsOk: bool, now: int, f: Fetched, order: seq<string>,
                   inSubnet: (string, string, string) -> bool)
      returns (info: Go<Info>, newData: bool, err: Option<string>)
      modifies this
      ensures !credsOk ==> err == Some("creds were nil") && !newData && unchanged(this)
      ensures credsOk && now - old(lastfetch) < 90 && SussInfo(old(Maps()), search, order, inSubnet).Value? &&
              SussInfo(old(Maps()), search, order, inSubnet).v.name.Some? ==>
        info == SussInfo(old(Maps()), search, order, inSubnet) && !newData && err.None? && unchanged(this)
      ensures credsOk && now - old(lastfetch) < 90 && SussInfo(old(Maps()), search, order, inSubnet).Panic? ==>
        info.Panic? && !newData && err.None? && unchanged(this)
      ensures credsOk ==> var cached := SussInfo(old(Maps()), search, order, inSubnet);
        (newData <==> (now - old(lastfetch) >= 90 || (cached.Value? && cached.v.name.None?)))
      ensures newData ==> err == (if name == "_ref_" then None else RefreshErr(f))
      ensures newData && err.None? ==> info == SussInfo(Maps(), search, order, inSubnet)
      ensures newData && err.Some? && now - old(lastfetch) >= 90 ==> info == Value(Info(None, None, None, None, None, None, None, map[]))
      ensures newData && name != "_ref_" ==> Maps() == Refreshed(old(Maps()), f) && lastfetch == now
      ensures newData && name == "_ref_" ==> unchanged(this)
      ensures credsOk && info.Value? && info.v.name.None? ==> newData
    {
      var empty := Info(None, None, None, None, None, None, None, map[]);
      newData, err := false, None;
      if !credsOk {
        return Value(empty), false, Some("creds were nil");
      }
      info := Value(empty);
      if now - lastfetch < 90 {
        info := SussInfo(Maps(), search, order, inSubnet);
        if info.Panic? {
          return;
        }
      }
      if info.v.name.None? {
        newData := true;
        var ex;
        err, ex := RefreshMaps(credsOk, lastfetch, f, now);
        if err.None? {
          info := SussInfo(Maps(), search, order, inSubnet);
        }
      }
    }

    /** `Fill_ip2mac(umap)`: copies every MAC entry into the caller's map; nothing for nil. */
    method FillIp2Mac(umap: Option<map<string, string>>) returns (r: Option<map<string, string>>)
      ensures umap.None? ==> r.None?
      ensures umap.Some? ==>
        (r.Some? && r.value.Keys == umap.value.Keys + ip2mac.Keys &&
         (forall k :: k in ip2mac ==> r.value[k] == ip2mac[k]) &&
         (forall k :: k in umap.value && k !in ip2mac ==> r.value[k] == umap.value[k]))
    {
      if umap.None? {
        return None;
      }
      var m := umap.value;
      var todo := ip2mac.Keys;
      while todo != {}
        invariant todo <= ip2mac.Keys
        invariant m.Keys == umap.value.Keys + (ip2mac.Keys - todo)
        invariant forall k :: k in ip2mac && k !in todo ==> m[k] == ip2mac[k]
        invariant forall k :: k in umap.value && k !in ip2mac ==> m[k] == umap.value[k]
        invariant forall k :: k in umap.value && k in todo ==> m[k] == umap.value[k]
        decreases todo
      {
        var k :| k in todo;
        m := m[k := ip2mac[k]];
        todo := todo - {k};
      }
      r := Some(m);
    }
  }

  /** Where `get_hostinfo` sends its search: nowhere (a bad request, or a project that
      maps to nothing, with the error), nothing at all for "!/host", or a project id, the
      name its credentials are filed under, and the "id/host" search string. */
  datatype HostTarget = BadRequest(err: string) | Nothing | Target(pid: string, pname: string, search: string)

  /** The parsing half of `get_hostinfo(req)`: exactly two non-empty '/'-pieces; "!" as the
      project gives nothing; a leading '!' is dropped; the project is taken as an id first
      and as a name second; it must have a project block and credentials. */
  function HostinfoTarget(req: string, id2pname: map<string, string>, pname2id: map<string, string>,
                          projs: set<string>, refs: set<string>): (r: HostTarget)
    ensures r.Target? ==> var toks := Split(req, '/');
      |toks| == 2 && toks[0] != "" && toks[1] != "" && toks[0] != "!" &&
      r.pid in projs && r.pname in refs && r.search == r.pid + "/" + toks[1]
    ensures r == Nothing <==> |Split(req, '/')| == 2 && Split(req, '/')[0] == "!" && Split(req, '/')[1] != ""
  {
    var toks := Split(req, '/');
    if |toks| != 2 || toks[0] == "" || toks[1] == "" then BadRequest("invalid project/hostname string")
    else if toks[0] == "!" then Nothing
    else
      var t0 := if toks[0][0] == '!' then toks[0][1..] else toks[0];
      var pname := if t0 in id2pname then id2pname[t0] else t0;
      var pid := if t0 in id2pname then Some(t0) else Lookup(pname2id, t0);
      if pid.None? then BadRequest(req + " could not be mapped to a osif_project")
      else if pid.value !in projs then BadRequest(req + " could not be mapped to a osif_project")
      else if pname !in refs then BadRequest(pname + " could not be mapped to openstack creds ")
      else Target(pid.value, pname, pid.value + "/" + toks[1])
  }

  /** A project given by id or by name (with or without a leading '!') leads to the same
      search when the maps agree. */
  lemma HostinfoById(id: string, pname: string, host: string, projs: set<string>, refs: set<string>)
    requires id != "" && host != "" && '/' !in id && '/' !in host && id[0] != '!' && id in projs && pname in refs
    ensures HostinfoTarget(id + "/" + host, map[id := pname], map[pname := id], projs, refs) == Target(id, pname, id + "/" + host)
  {
    SplitCons(id, host, '/');
    assert id + "/" + host == id + ['/'] + host;
  }

  lemma HostinfoByName(id: string, pname: string, host: string, projs: set<string>, refs: set<string>)
    requires id != pname && pname != "" && host != "" && '/' !in pname && '/' !in host && pname[0] != '!'
    requires id in projs && pname in refs
    ensures HostinfoTarget(pname + "/" + host, map[id := pname], map[pname := id], projs, refs) == Target(id, pname, id + "/" + host)
    ensures HostinfoTarget("!" + pname + "/" + host, map[id := pname], map[pname := id], projs, refs) == Target(id, pname, id + "/" + host)
  {
    SplitCons(pname, host, '/');
    assert pname + "/" + host == pname + ['/'] + host;
    SplitCons("!" + pname, host, '/');
    assert "!" + pname + "/" + host == ("!" + pname) + ['/'] + host;
    assert ("!" + pname)[1..] == pname;
  }
}
