/** The flow/queue manager (managers/fq_mgr.go): turning a generic flow-mod request into the
    option strings an agent receives, fanning requests out over hosts, the DSCP translation
    of proactive ingress/egress reservations and the manager's configuration.
    DSCP values travel to the agent shifted left two bits, as the upper six bits of the
    DS field (section 3 of RFC 2474). Messages are returned rather than sent. */
module FqMgr {
  import opened Wrappers
  import opened Strs
  import opened Nums
  import Network

  // ---- requests and messages ----------------------------------------------------------------

  /** Match or action half of a flow-mod request (`Fq_parms`). */
  datatype FqParms = FqParms(ip1: Option<string>, ip2: Option<string>, meta: Option<string>, swport: int,
                             smac: Option<string>, dmac: Option<string>, dscp: int)

  /** The queue a reservation is pinned to (`Spq`). */
  datatype Espq = Espq(switch: string, port: int, queuenum: int)

  /** A flow-mod request (`Fq_req`); `None` stands for Go's nil. */
  datatype FqReq = FqReq(
    pri: int, expiry: int, table: int, matching: FqParms, action: FqParms, nxtMac: Option<string>,
    extip: Option<string>, exttyp: Option<string>, espq: Option<Espq>, lbmac: Option<string>,
    output: Option<string>, resub: Option<string>, swid: Option<string>, cookie: int,
    dirIn: bool, singleSwitch: bool, preserveDscp: int)

  /** One agent command-line option: a bare flag or a flag with its value. */
  datatype Opt = Flag(f: string) | Arg(f: string, v: string)

  /** One flow-mod for the agent: "-h host [table] -t timeout -p pri match action add cookie sw". */
  datatype Fmod = Fmod(host: string, table: Option<int>, timeout: int, pri: int,
                       matching: seq<Opt>, action: seq<Opt>, cookie: int, sw: string)

  /** A DSCP value as the agent wants it: moved into the upper six bits of the DS byte. */
  function Tos(dscp: int): int { dscp * 4 }

  // ---- option building (specification) ------------------------------------------------------

  /** The priority actually used: anything not positive becomes 100. */
  function NormPri(pri: int): (p: int)
    ensures p > 0
    ensures pri > 0 ==> p == pri
  {
    if pri <= 0 then 100 else pri
  }

  /** The flow-mod timeout: none (0) without an expiry, else the seconds left. */
  function Timeout(expiry: int, now: int): int
  {
    if expiry > 0 then expiry - now else 0
  }

  /** An explicit MAC wins; else the IP's MAC; `None` when an IP was given that has no MAC. */
  function Translate(mac: Option<string>, ip: Option<string>, ip2mac: map<string, string>): (r: Option<Option<string>>)
    ensures mac.Some? ==> r == Some(mac)
    ensures mac.None? && ip.Some? ==> (r.Some? <==> ip.value in ip2mac)
    ensures r.Some? && r.value.Some? && mac.None? ==> ip.Some? && r.value.value == ip2mac[ip.value]
  {
    if mac.Some? then Some(mac)
    else if ip.None? then Some(None)
    else if ip.value in ip2mac then Some(Some(ip2mac[ip.value]))
    else None
  }

  function MetaOpt(meta: Option<string>): seq<Opt>
  {
    if meta.Some? && meta.value != "" then [Arg("-m", meta.value)] else []
  }

  /** The inbound port: a real port, or the late-binding MAC for port -128. */
  function PortOpt(swport: int, lbmac: Option<string>): seq<Opt>
  {
    if swport > 0 then [Arg("-i", IntStr(swport))]
    else if swport == -128 && lbmac.Some? then [Arg("-i", lbmac.value)]
    else []
  }

  function MacOpt(flag: string, mac: Option<string>): seq<Opt>
  {
    if mac.Some? then [Arg(flag, mac.value)] else []
  }

  /** The external address, prefixed by its direction flag; a nil direction is dereferenced. */
  function ExtOpt(extip: Option<string>, exttyp: Option<string>): Go<seq<Opt>>
  {
    if extip.Some? && extip.value != "" then
      if exttyp.None? then Panic else Value([Arg(exttyp.value, extip.value)])
    else Value([])
  }

  function MatchDscpOpt(dscp: int): seq<Opt>
  {
    if dscp >= 0 then [Arg("-T", IntStr(Tos(dscp)))] else []
  }

  /** The match options; `Value(None)` when an IP does not translate (nothing is sent). */
  function MatchOpts(d: FqReq, ip2mac: map<string, string>): Go<Option<seq<Opt>>>
  {
    var s := Translate(d.matching.smac, d.matching.ip1, ip2mac);
    var t := Translate(d.matching.dmac, d.matching.ip2, ip2mac);
    if s.None? || t.None? then Value(None)
    else match ExtOpt(d.extip, d.exttyp)
      case Panic => Panic
      case Value(e) =>
        Value(Some(MetaOpt(d.matching.meta) + PortOpt(d.matching.swport, d.lbmac) + MacOpt("-s", s.value) +
                   MacOpt("-d", t.value) + e + MatchDscpOpt(d.matching.dscp)))
  }

  /** The DSCP to write, only when it differs from the one matched. */
  function ActionDscpOpt(mdscp: int, adscp: int): seq<Opt>
  {
    if adscp >= 0 && mdscp != adscp then [Arg("-T", IntStr(Tos(adscp)))] else []
  }

  function QueueOpt(espq: Option<Espq>): seq<Opt>
  {
    if espq.Some? && espq.value.queuenum >= 0 then [Arg("-q", IntStr(espq.value.queuenum))] else []
  }

  /** One "-R ,t" per table of the resub list, in order. */
  function Resubs(toks: seq<string>): (r: seq<Opt>)
    ensures |r| == |toks|
    ensures forall i :: 0 <= i < |r| ==> r[i] == Arg("-R", "," + toks[i])
  {
    if |toks| == 0 then [] else [Arg("-R", "," + toks[0])] + Resubs(toks[1..])
  }

  function ResubOpts(resub: Option<string>): seq<Opt>
  {
    if resub.Some? then Resubs(Split(resub.value, ' ')) else []
  }

  /** The output action: none, normal or drop; anything else, and any resub, is none. */
  function OutputFlag(output: Option<string>, resub: Option<string>): (o: string)
    ensures o == "-N" || o == "-n" || o == "-X"
  {
    if resub.Some? || output.None? then "-N"
    else if output.value == "normal" then "-n"
    else if output.value == "drop" then "-X"
    else "-N"
  }

  /** The action options, the output action last. */
  function ActionOpts(d: FqReq): seq<Opt>
  {
    MacOpt("-d", d.action.dmac) + MacOpt("-s", d.action.smac) + MacOpt("-d", d.nxtMac) +
    ActionDscpOpt(d.matching.dscp, d.action.dscp) + QueueOpt(d.espq) + MetaOpt(d.action.meta) +
    ResubOpts(d.resub) + [Flag(OutputFlag(d.output, d.resub))]
  }

  /** The same flow-mod for every host of the list. */
  function PerHost(hosts: seq<string>, f: Fmod): (r: seq<Fmod>)
    ensures |r| == |hosts|
    ensures forall i :: 0 <= i < |r| ==> r[i] == f.(host := hosts[i])
  {
    if |hosts| == 0 then [] else [f.(host := hosts[0])] + PerHost(hosts[1..], f)
  }

  /** `send_gfmod_agent`: the flow-mods sent for a request. Nothing for nil data, a past
      expiry or an untranslatable IP; with no switch id one per host of the host list (each
      with the table option), else one to the named switch. */
  function Gfmod(data: Option<FqReq>, ip2mac: map<string, string>, hlist: Option<string>, now: int): Go<seq<Fmod>>
  {
    if data.None? then Value([])
    else
      var d := data.value;
      var timeout := Timeout(d.expiry, now);
      if timeout < 0 then Value([])
      else Emitted(d, MatchOpts(d, ip2mac), hlist, timeout)
  }

  /** The flow-mods for a request whose timeout has not passed, given its match options. */
  function Emitted(d: FqReq, mo: Go<Option<seq<Opt>>>, hlist: Option<string>, timeout: int): Go<seq<Fmod>>
  {
    match mo
    case Panic => Panic
    case Value(None) => Value([])
    case Value(Some(m)) =>
      var table := if d.table > 0 then Some(d.table) else None;
      if d.swid.None? then
        if hlist.None? || d.espq.None? then Panic
        else Value(PerHost(Split(hlist.value, ' '),
                           Fmod("", table, timeout, NormPri(d.pri), m, ActionOpts(d), d.cookie, d.espq.value.switch)))
      else if d.espq.None? then Panic
      else Value([Fmod(d.espq.value.switch, None, timeout, NormPri(d.pri), m, ActionOpts(d), d.cookie, d.swid.value)])
  }

  // ---- option building (imperative) ---------------------------------------------------------

  /** The match options, appended one after the other. */
  method BuildMatch(d: FqReq, ip2mac: map<string, string>) returns (r: Go<Option<seq<Opt>>>)
    ensures r == MatchOpts(d, ip2mac)
  {
    var m: seq<Opt> := [];
    if d.matching.meta.Some? && d.matching.meta.value != "" {
      m := m + [Arg("-m", d.matching.meta.value)];
    }
    if d.matching.swport > 0 {
      m := m + [Arg("-i", IntStr(d.matching.swport))];
    } else if d.matching.swport == -128 && d.lbmac.Some? {
      m := m + [Arg("-i", d.lbmac.value)];
    }
    assert m == MetaOpt(d.matching.meta) + PortOpt(d.matching.swport, d.lbmac);
    var ms := AppendMac(m, "-s", d.matching.smac, d.matching.ip1, ip2mac);
    if ms.None? {
      return Value(None);
    }
    var md := AppendMac(ms.value, "-d", d.matching.dmac, d.matching.ip2, ip2mac);
    if md.None? {
      return Value(None);
    }
    m := md.value;
    ghost var m2 := m;
    if d.extip.Some? && d.extip.value != "" {
      if d.exttyp.None? {
        return Panic;
      }
      m := m + [Arg(d.exttyp.value, d.extip.value)];
    }
    assert m == m2 + ExtOpt(d.extip, d.exttyp).v;
    ghost var m3 := m;
    if d.matching.dscp >= 0 {
      m := m + [Arg("-T", IntStr(Tos(d.matching.dscp)))];
    }
    assert m == m3 + MatchDscpOpt(d.matching.dscp);
    return Value(Some(m));
  }

  /** Appends the MAC to match: the one given, else the IP's; `None` when the IP has no MAC. */
  method AppendMac(m0: seq<Opt>, flag: string, mac0: Option<string>, ip: Option<string>, ip2mac: map<string, string>)
    returns (m: Option<seq<Opt>>)
    ensures Translate(mac0, ip, ip2mac).None? ==> m.None?
    ensures Translate(mac0, ip, ip2mac).Some? ==> m == Some(m0 + MacOpt(flag, Translate(mac0, ip, ip2mac).value))
  {
    var mac := mac0;
    if mac.None? && ip.Some? {
      if ip.value !in ip2mac {
        return None;
      }
      mac := Some(ip2mac[ip.value]);
    }
    if mac.Some? {
      return Some(m0 + [Arg(flag, mac.value)]);
    }
    assert m0 + [] == m0;
    return Some(m0);
  }

  /** The action options, appended one after the other; the resub tables in a loop. */
  method BuildAction(d: FqReq) returns (a: seq<Opt>)
    ensures a == ActionOpts(d)
  {
    a := MacOpt("-d", d.action.dmac) + MacOpt("-s", d.action.smac) + MacOpt("-d", d.nxtMac);
    if d.action.dscp >= 0 && d.matching.dscp != d.action.dscp {
      a := a + [Arg("-T", IntStr(Tos(d.action.dscp)))];
    }
    if d.espq.Some? && d.espq.value.queuenum >= 0 {
      a := a + [Arg("-q", IntStr(d.espq.value.queuenum))];
    }
    a := a + MetaOpt(d.action.meta);
    var output := PickOutput(d.output);
    if d.resub.Some? {
      a := AppendResubs(a, Split(d.resub.value, ' '));
      output := "-N";
    }
    a := a + [Flag(output)];
  }

  /** The output action named in a request: none, normal or drop, none for anything else. */
  method PickOutput(o: Option<string>) returns (output: string)
    ensures output == OutputFlag(o, None)
  {
    output := "-N";
    if o.Some? {
      if o.value == "none" {
        output := "-N";
      } else if o.value == "normal" {
        output := "-n";
      } else if o.value == "drop" {
        output := "-X";
      }
    }
  }

  /** Appends one "-R ,t" per resub table, in order. */
  method AppendResubs(a0: seq<Opt>, toks: seq<string>) returns (a: seq<Opt>)
    ensures a == a0 + Resubs(toks)
  {
    a := a0;
    for i := 0 to |toks|
      invariant a == a0 + Resubs(toks[..i])
    {
      ResubsSnoc(toks[..i], toks[i]);
      assert toks[..i + 1] == toks[..i] + [toks[i]];
      a := a + [Arg("-R", "," + toks[i])];
    }
    assert toks[..|toks|] == toks;
  }

  lemma {:induction false} ResubsSnoc(toks: seq<string>, t: string)
    ensures Resubs(toks + [t]) == Resubs(toks) + [Arg("-R", "," + t)]
  {
    if |toks| > 0 {
      assert (toks + [t])[1..] == toks[1..] + [t];
      ResubsSnoc(toks[1..], t);
    }
  }

  /** `send_gfmod_agent`: normalises the request's priority (the caller's copy is changed)
      and builds the flow-mods, one per host in a loop when no switch is named. */
  method SendGfmod(data: Option<FqReq>, ip2mac: map<string, string>, hlist: Option<string>, now: int)
    returns (msgs: Go<seq<Fmod>>, pri: int)
    ensures msgs == Gfmod(data, ip2mac, hlist, now)
    ensures data.Some? ==> pri == NormPri(data.value.pri)
  {
    pri := 0;
    if data.None? {
      return Value([]), pri;
    }
    var d := data.value;
    pri := d.pri;
    if pri <= 0 {
      pri := 100;
    }
    var timeout := 0;
    if d.expiry > 0 {
      timeout := d.expiry - now;
    }
    if timeout < 0 {
      return Value([]), pri;
    }
    var mo := BuildMatch(d, ip2mac);
    msgs := Emit(d, mo, hlist, timeout, pri);
  }

  /** The end of `send_gfmod_agent` once the match options are built: a panic or nothing
      when they say so, else the action options and the flow-mods. */
  method Emit(d: FqReq, mo: Go<Option<seq<Opt>>>, hlist: Option<string>, timeout: int, pri: int)
    returns (msgs: Go<seq<Fmod>>)
    requires pri == NormPri(d.pri)
    ensures msgs == Emitted(d, mo, hlist, timeout)
  {
    var table: Option<int> := None;
    if d.table > 0 {
      table := Some(d.table);
    }
    if mo.Panic? {
      return Panic;
    }
    if mo.v.None? {
      return Value([]);
    }
    var act := BuildAction(d);
    if d.swid.None? {
      if hlist.None? || d.espq.None? {
        return Panic;
      }
      var hosts := Split(hlist.value, ' ');
      var f := Fmod("", table, timeout, pri, mo.v.value, act, d.cookie, d.espq.value.switch);
      var out := FanOut(hosts, f);
      msgs := Value(out);
    } else {
      if d.espq.None? {
        return Panic;
      }
      msgs := Value([Fmod(d.espq.value.switch, None, timeout, pri, mo.v.value, act, d.cookie, d.swid.value)]);
    }
  }

  /** The host loop of `send_gfmod_agent`: one copy of the flow-mod per host, in order. */
  method FanOut(hosts: seq<string>, f: Fmod) returns (out: seq<Fmod>)
    ensures out == PerHost(hosts, f)
  {
    out := [];
    for i := 0 to |hosts|
      invariant out == PerHost(hosts[..i], f)
    {
      PerHostSnoc(hosts[..i], hosts[i], f);
      assert hosts[..i + 1] == hosts[..i] + [hosts[i]];
      out := out + [f.(host := hosts[i])];
    }
    assert hosts[..|hosts|] == hosts;
  }

  lemma {:induction false} PerHostSnoc(hosts: seq<string>, h: string, f: Fmod)
    ensures PerHost(hosts + [h], f) == PerHost(hosts, f) + [f.(host := h)]
  {
    if |hosts| > 0 {
      assert (hosts + [h])[1..] == hosts[1..] + [h];
      PerHostSnoc(hosts[1..], h, f);
    }
  }

  // ---- properties of the flow-mods -----------------------------------------------------------

  /** Nothing is sent for nil data, for an expiry already passed, or when a match IP given
      without its MAC has no translation. */
  lemma GfmodSilent(data: Option<FqReq>, ip2mac: map<string, string>, hlist: Option<string>, now: int)
    requires data.None? || (data.value.expiry > 0 && data.value.expiry < now) ||
             (data.value.matching.smac.None? && data.value.matching.ip1.Some? && data.value.matching.ip1.value !in ip2mac) ||
             (data.value.matching.dmac.None? && data.value.matching.ip2.Some? && data.value.matching.ip2.value !in ip2mac)
    ensures Gfmod(data, ip2mac, hlist, now) == Value([])
  {
  }

  /** Without a switch id every host of the list gets one flow-mod, in list order; with one
      exactly one flow-mod goes to the reservation's switch. Each carries the normalised
      priority and the timeout left before the expiry. */
  lemma GfmodFanOut(d: FqReq, ip2mac: map<string, string>, hlist: Option<string>, now: int)
    ensures Gfmod(Some(d), ip2mac, hlist, now).Value? && d.swid.None? && |Gfmod(Some(d), ip2mac, hlist, now).v| > 0 ==>
      var ms := Gfmod(Some(d), ip2mac, hlist, now).v; var hosts := Split(hlist.value, ' ');
      |ms| == |hosts| && forall i :: 0 <= i < |ms| ==> ms[i].host == hosts[i] && ms[i].sw == d.espq.value.switch
    ensures Gfmod(Some(d), ip2mac, hlist, now).Value? && d.swid.Some? && |Gfmod(Some(d), ip2mac, hlist, now).v| > 0 ==>
      var ms := Gfmod(Some(d), ip2mac, hlist, now).v;
      |ms| == 1 && ms[0].host == d.espq.value.switch && ms[0].sw == d.swid.value && ms[0].table.None?
    ensures Gfmod(Some(d), ip2mac, hlist, now).Value? ==>
      forall m :: m in Gfmod(Some(d), ip2mac, hlist, now).v ==> m.pri == NormPri(d.pri) && m.timeout == Timeout(d.expiry, now) >= 0
  {
  }

  /** The matched DSCP is sent shifted when it is not negative; the written DSCP only when it
      is not negative and differs from the matched one (the direction flag of an external
      address is taken not to be "-T"). */
  lemma GfmodDscp(d: FqReq, ip2mac: map<string, string>, hlist: Option<string>, now: int, m: Fmod)
    requires Gfmod(Some(d), ip2mac, hlist, now).Value? && m in Gfmod(Some(d), ip2mac, hlist, now).v
    requires d.exttyp != Some("-T")
    ensures HasT(m.matching) <==> d.matching.dscp >= 0
    ensures d.matching.dscp >= 0 ==> Arg("-T", IntStr(Tos(d.matching.dscp))) in m.matching
    ensures HasT(m.action) <==> d.action.dscp >= 0 && d.action.dscp != d.matching.dscp
    ensures d.action.dscp >= 0 && d.action.dscp != d.matching.dscp ==> Arg("-T", IntStr(Tos(d.action.dscp))) in m.action
  {
    EmittedFields(d, ip2mac, hlist, now, m);
    MatchT(d, ip2mac);
    ActionT(d);
  }

  /** Every flow-mod sent carries the request's match options, its action options, the
      normalised priority and the timeout left. */
  lemma EmittedFields(d: FqReq, ip2mac: map<string, string>, hlist: Option<string>, now: int, m: Fmod)
    requires Gfmod(Some(d), ip2mac, hlist, now).Value? && m in Gfmod(Some(d), ip2mac, hlist, now).v
    ensures MatchOpts(d, ip2mac) == Value(Some(m.matching)) && m.action == ActionOpts(d)
    ensures m.pri == NormPri(d.pri) && m.timeout == Timeout(d.expiry, now) >= 0
  {
  }

  /** Some option of the list sets a DSCP ("-T"). */
  ghost predicate HasT(xs: seq<Opt>)
  {
    exists v :: Arg("-T", v) in xs
  }

  lemma HasTAppend(a: seq<Opt>, b: seq<Opt>)
    ensures HasT(a + b) <==> HasT(a) || HasT(b)
  {
    if HasT(a + b) {
      var v :| Arg("-T", v) in a + b;
      assert Arg("-T", v) in a || Arg("-T", v) in b;
    }
    if HasT(a) {
      var v :| Arg("-T", v) in a;
      assert Arg("-T", v) in a + b;
    }
    if HasT(b) {
      var v :| Arg("-T", v) in b;
      assert Arg("-T", v) in a + b;
    }
  }

  /** A list holding at most one option, whose flag is not "-T", sets no DSCP. */
  lemma NoT(xs: seq<Opt>)
    requires |xs| <= 1 && forall o :: o in xs ==> o.f != "-T"
    ensures !HasT(xs)
  {
  }

  /** The match options set a DSCP exactly when a matched DSCP is given, and then the
      shifted one (the direction flag of an external address is taken not to be "-T"). */
  lemma MatchT(d: FqReq, ip2mac: map<string, string>)
    requires MatchOpts(d, ip2mac).Value? && MatchOpts(d, ip2mac).v.Some? && d.exttyp != Some("-T")
    ensures HasT(MatchOpts(d, ip2mac).v.value) <==> d.matching.dscp >= 0
    ensures d.matching.dscp >= 0 ==> Arg("-T", IntStr(Tos(d.matching.dscp))) in MatchOpts(d, ip2mac).v.value
  {
    var s := Translate(d.matching.smac, d.matching.ip1, ip2mac).value;
    var t := Translate(d.matching.dmac, d.matching.ip2, ip2mac).value;
    var e := ExtOpt(d.extip, d.exttyp).v;
    var a := MetaOpt(d.matching.meta);
    var b := PortOpt(d.matching.swport, d.lbmac);
    var c := MacOpt("-s", s);
    var c2 := MacOpt("-d", t);
    var x := MatchDscpOpt(d.matching.dscp);
    assert MatchOpts(d, ip2mac).v.value == a + b + c + c2 + e + x;
    NoT(a); NoT(b); NoT(c); NoT(c2); NoT(e);
    HasTAppend(a, b);
    HasTAppend(a + b, c);
    HasTAppend(a + b + c, c2);
    HasTAppend(a + b + c + c2, e);
    HasTAppend(a + b + c + c2 + e, x);
    if d.matching.dscp >= 0 {
      assert x[0] == Arg("-T", IntStr(Tos(d.matching.dscp)));
    } else {
      NoT(x);
    }
  }

  /** The action options set a DSCP exactly when a written DSCP is given that differs from
      the matched one, and then the shifted one. */
  lemma ActionT(d: FqReq)
    ensures HasT(ActionOpts(d)) <==> d.action.dscp >= 0 && d.action.dscp != d.matching.dscp
    ensures d.action.dscp >= 0 && d.action.dscp != d.matching.dscp ==> Arg("-T", IntStr(Tos(d.action.dscp))) in ActionOpts(d)
  {
    var a := MacOpt("-d", d.action.dmac);
    var b := MacOpt("-s", d.action.smac);
    var c := MacOpt("-d", d.nxtMac);
    var x := ActionDscpOpt(d.matching.dscp, d.action.dscp);
    var q := QueueOpt(d.espq);
    var mt := MetaOpt(d.action.meta);
    var r := ResubOpts(d.resub);
    var o := [Flag(OutputFlag(d.output, d.resub))];
    assert ActionOpts(d) == a + b + c + x + q + mt + r + o;
    NoT(a); NoT(b); NoT(c); NoT(q); NoT(mt); NoT(o);
    assert !HasT(r);
    HasTAppend(a, b);
    HasTAppend(a + b, c);
    HasTAppend(a + b + c, x);
    HasTAppend(a + b + c + x, q);
    HasTAppend(a + b + c + x + q, mt);
    HasTAppend(a + b + c + x + q + mt, r);
    HasTAppend(a + b + c + x + q + mt + r, o);
    if d.action.dscp >= 0 && d.action.dscp != d.matching.dscp {
      assert x[0] == Arg("-T", IntStr(Tos(d.action.dscp)));
    } else {
      NoT(x);
    }
  }

  /** The output action is last: none, normal or drop as asked, none for anything else; a
      resub list forces none and puts its "-R ,t" options, in order, just before it. */
  lemma GfmodOutput(d: FqReq)
    ensures var a := ActionOpts(d); |a| > 0 && a[|a| - 1] == Flag(OutputFlag(d.output, d.resub))
    ensures d.resub.None? && d.output == Some("normal") ==> OutputFlag(d.output, d.resub) == "-n"
    ensures d.resub.None? && d.output == Some("drop") ==> OutputFlag(d.output, d.resub) == "-X"
    ensures d.resub.None? && d.output != Some("normal") && d.output != Some("drop") ==> OutputFlag(d.output, d.resub) == "-N"
    ensures d.resub.Some? ==>
      var a := ActionOpts(d); var toks := Split(d.resub.value, ' ');
      OutputFlag(d.output, d.resub) == "-N" && |a| > |toks| &&
      forall i :: 0 <= i < |toks| ==> a[|a| - 1 - |toks| + i] == Arg("-R", "," + toks[i])
  {
    var pre := ActionHead(d);
    if d.resub.Some? {
      ResubsLast(pre, Split(d.resub.value, ' '), OutputFlag(d.output, d.resub));
    }
  }

  /** The action options before the resubs: MACs, DSCP, queue and metadata. */
  function ActionHead(d: FqReq): (pre: seq<Opt>)
    ensures ActionOpts(d) == pre + ResubOpts(d.resub) + [Flag(OutputFlag(d.output, d.resub))]
  {
    MacOpt("-d", d.action.dmac) + MacOpt("-s", d.action.smac) + MacOpt("-d", d.nxtMac) +
    ActionDscpOpt(d.matching.dscp, d.action.dscp) + QueueOpt(d.espq) + MetaOpt(d.action.meta)
  }

  /** The resub options sit, in order, just before the final flag. */
  lemma ResubsLast(pre: seq<Opt>, toks: seq<string>, flag: string)
    ensures var a := pre + Resubs(toks) + [Flag(flag)];
      |a| > |toks| && forall i :: 0 <= i < |toks| ==> a[|a| - 1 - |toks| + i] == Arg("-R", "," + toks[i])
  {
    var r := Resubs(toks);
    var a := pre + r + [Flag(flag)];
    assert |a| == |pre| + |toks| + 1;
    forall i | 0 <= i < |toks| ensures a[|a| - 1 - |toks| + i] == Arg("-R", "," + toks[i]) {
      calc {
        a[|a| - 1 - |toks| + i];
        (pre + r)[|pre| + i];
        r[i];
      }
    }
  }

  /** An explicit MAC is matched as given; else the translated MAC of the IP. */
  lemma GfmodMacs(d: FqReq, ip2mac: map<string, string>, hlist: Option<string>, now: int, m: Fmod)
    requires Gfmod(Some(d), ip2mac, hlist, now).Value? && m in Gfmod(Some(d), ip2mac, hlist, now).v
    ensures d.matching.smac.Some? ==> Arg("-s", d.matching.smac.value) in m.matching
    ensures d.matching.smac.None? && d.matching.ip1.Some? ==>
      d.matching.ip1.value in ip2mac && Arg("-s", ip2mac[d.matching.ip1.value]) in m.matching
    ensures d.matching.dmac.Some? ==> Arg("-d", d.matching.dmac.value) in m.matching
    ensures d.matching.dmac.None? && d.matching.ip2.Some? ==>
      d.matching.ip2.value in ip2mac && Arg("-d", ip2mac[d.matching.ip2.value]) in m.matching
  {
    var mo := MatchOpts(d, ip2mac);
    assert mo.Value? && mo.v.Some? && m.matching == mo.v.value;
  }

  // ---- queue adjustment ----------------------------------------------------------------------

  /** One "setqueues" request: the whole queue list for a single host. */
  datatype SetQueues = SetQueues(qlist: seq<string>, host: string)

  /** `adjust_queues_agent`: one request per host of the space-separated host list, so that
      several agents can share the work; a nil host list is dereferenced. */
  method AdjustQueuesAgent(qlist: seq<string>, hlist: Option<string>) returns (msgs: Go<seq<SetQueues>>)
    ensures hlist.None? <==> msgs.Panic?
    ensures msgs.Value? ==> (|msgs.v| == |Split(hlist.value, ' ')| >= 1 &&
      forall i :: 0 <= i < |msgs.v| ==> msgs.v[i] == SetQueues(qlist, Split(hlist.value, ' ')[i]))
  {
    if hlist.None? {
      return Panic;
    }
    var hosts := Split(hlist.value, ' ');
    var out: seq<SetQueues> := [];
    for i := 0 to |hosts|
      invariant |out| == i
      invariant forall k :: 0 <= k < i ==> out[k] == SetQueues(qlist, hosts[k])
    {
      out := out + [SetQueues(qlist, hosts[i])];
    }
    return Value(out);
  }

  // ---- the deprecated reservation flow-mod ---------------------------------------------------

  /** One flow-mod of `send_fmod_agent`: always priority 400, resubmitted to table 0 and with
      cookie 0xdead; `proto` holds the transport-port matches. */
  datatype OldFmod = OldFmod(host: string, timeout: int, mtos: int, smac: string, dmac: string, extip: string,
                             proto: seq<Opt>, qnum: int, wtos: int, act: string, sw: string)

  /** The transport-port matches for one protocol number (6 TCP, 17 UDP). */
  function PortMatch(proto: string, sport: int, dport: int): seq<Opt>
  {
    (if sport > 0 then [Arg("-p", proto + ":" + IntStr(sport))] else []) +
    (if dport > 0 then [Arg("-P", proto + ":" + IntStr(dport))] else [])
  }

  /** `send_fmod_agent`: skipped for an intermediate queue (1) unless every switch is sent
      flow-mods, when an IP has no MAC or when the expiry is not in the future. A port of 0
      or less means the switch named is the physical host and the bridge is br-int. With
      transport ports a TCP and a UDP variant are built, but the TCP one is sent twice. */
  function SendFmod(act: string, ip1: string, ip2: string, extip: string, sport: int, dport: int, expiry: int,
                    qnum: int, sw: string, port: int, ip2mac: map<string, string>, mdscp: int, wdscp: int,
                    sendAll: bool, now: int): (r: seq<OldFmod>)
    ensures |r| <= 2
    ensures |r| > 0 ==> (sendAll || qnum != 1) && ip1 in ip2mac && ip2 in ip2mac && expiry > now
  {
    if !(sendAll || qnum != 1) || ip1 !in ip2mac || ip2 !in ip2mac then []
    else
      var timeout := expiry - now;
      if timeout <= 0 then []
      else
        var host := if port <= 0 then sw else "all";
        var bridge := if port <= 0 then "br-int" else sw;
        var tcp := OldFmod(host, timeout, Tos(mdscp), ip2mac[ip1], ip2mac[ip2], extip, PortMatch("6", sport, dport),
                           qnum, Tos(wdscp), act, bridge);
        if sport > 0 || dport > 0 then [tcp, tcp] else [tcp]
  }

  /** With a transport port the UDP flow-mod is never sent: the same TCP flow-mod goes out
      twice. */
  lemma SendFmodNoUdp(act: string, ip1: string, ip2: string, extip: string, sport: int, dport: int, expiry: int,
                      qnum: int, sw: string, port: int, ip2mac: map<string, string>, mdscp: int, wdscp: int,
                      sendAll: bool, now: int)
    requires sendAll && ip1 in ip2mac && ip2 in ip2mac && expiry > now && sport > 0
    ensures var r := SendFmod(act, ip1, ip2, extip, sport, dport, expiry, qnum, sw, port, ip2mac, mdscp, wdscp, sendAll, now);
      |r| == 2 && r[0] == r[1] && Arg("-p", "6:" + IntStr(sport)) in r[1].proto &&
      forall i :: 0 <= i < |r| ==> Arg("-p", "17:" + IntStr(sport)) !in r[i].proto
  {
    var r := SendFmod(act, ip1, ip2, extip, sport, dport, expiry, qnum, sw, port, ip2mac, mdscp, wdscp, sendAll, now);
    assert r[1].proto == PortMatch("6", sport, dport);
    assert r[1].proto[0] == Arg("-p", "6:" + IntStr(sport));
    assert "6:" + IntStr(sport) != "17:" + IntStr(sport) by {
      assert ("6:" + IntStr(sport))[0] != ("17:" + IntStr(sport))[0];
    }
    assert "6:" + IntStr(dport) != "17:" + IntStr(sport) by {
      assert ("6:" + IntStr(dport))[0] != ("17:" + IntStr(sport))[0];
    }
  }

  // ---- proactive ingress/egress reservation --------------------------------------------------

  /** A request as `REQ_IE_RESERVE` prepares it before the DSCP values are set: resubmit to
      tables 10 then 0, match only when meta bit 0x2 is clear, and bridge br-int when the
      port is late-bound (-128). */
  function IePrep(f: FqReq, e: Espq): FqReq
  {
    f.(swid := if e.port == -128 then Some("br-int") else f.swid,
       resub := Some("10 0"),
       matching := f.matching.(meta := Some("0x00/0x02")))
  }

  function WithDscp(c: FqReq, m: int, a: int): FqReq
  {
    c.(matching := c.matching.(dscp := m), action := c.action.(dscp := a))
  }

  /** `REQ_IE_RESERVE` without an SDN controller: the flow-mod requests handed on. Nothing
      for an intermediate queue unless every switch gets flow-mods; one request matching
      no DSCP on a single switch; else three translations: outbound the reservation's DSCP
      (0 unless one is preserved), 32 and 46 become `dscp`, 40 and 41; inbound the reverse. */
  function IeReserve(f: FqReq, sendAll: bool, dscp: int): Go<seq<FqReq>>
  {
    if f.espq.None? then Panic
    else if !(sendAll || f.espq.value.queuenum > 1) then Value([])
    else
      var rdscp := if f.preserveDscp > 0 then f.preserveDscp else 0;
      var c := IePrep(f, f.espq.value);
      if f.singleSwitch then Value([c.(matching := c.matching.(dscp := -1))])
      else if f.dirIn then Value([WithDscp(c, dscp, rdscp), WithDscp(c, 40, 32), WithDscp(c, 41, 46)])
      else Value([WithDscp(c, rdscp, dscp), WithDscp(c, 32, 40), WithDscp(c, 46, 41)])
  }

  /** The (matched, written) DSCP pairs of the requests. */
  function DscpPairs(rs: seq<FqReq>): (r: seq<(int, int)>)
    ensures |r| == |rs|
    ensures forall k :: 0 <= k < |rs| ==> r[k] == (rs[k].matching.dscp, rs[k].action.dscp)
  {
    if |rs| == 0 then [] else [(rs[0].matching.dscp, rs[0].action.dscp)] + DscpPairs(rs[1..])
  }

  /** Each pair turned around. */
  function Swapped(ps: seq<(int, int)>): (r: seq<(int, int)>)
    ensures |r| == |ps|
    ensures forall k :: 0 <= k < |ps| ==> r[k] == (ps[k].1, ps[k].0)
  {
    if |ps| == 0 then [] else [(ps[0].1, ps[0].0)] + Swapped(ps[1..])
  }

  /** Turning the pairs around twice gives them back. */
  lemma SwappedTwice(ps: seq<(int, int)>)
    ensures Swapped(Swapped(ps)) == ps
  {
    assert forall k :: 0 <= k < |ps| ==> Swapped(Swapped(ps))[k] == ps[k];
  }

  /** Inbound translation undoes outbound: its DSCP pairs are the outbound pairs reversed,
      so traffic leaves the network with the DSCP it entered with. */
  lemma IeReserveInverse(f: FqReq, sendAll: bool, dscp: int)
    requires f.espq.Some? && (sendAll || f.espq.value.queuenum > 1) && !f.singleSwitch
    ensures IeReserve(f.(dirIn := true), sendAll, dscp).Value? && IeReserve(f.(dirIn := false), sendAll, dscp).Value?
    ensures DscpPairs(IeReserve(f.(dirIn := true), sendAll, dscp).v) == Swapped(DscpPairs(IeReserve(f.(dirIn := false), sendAll, dscp).v))
    ensures |IeReserve(f.(dirIn := true), sendAll, dscp).v| == 3
  {
    var rd := if f.preserveDscp > 0 then f.preserveDscp else 0;
    var ci := IePrep(f.(dirIn := true), f.espq.value);
    var co := IePrep(f.(dirIn := false), f.espq.value);
    Pairs3(WithDscp(ci, dscp, rd), WithDscp(ci, 40, 32), WithDscp(ci, 41, 46));
    Pairs3(WithDscp(co, rd, dscp), WithDscp(co, 32, 40), WithDscp(co, 46, 41));
    assert [(rd, dscp), (32, 40), (46, 41)][1..] == [(32, 40), (46, 41)];
    assert [(32, 40), (46, 41)][1..] == [(46, 41)];
  }

  lemma Pairs3(a: FqReq, b: FqReq, c: FqReq)
    ensures DscpPairs([a, b, c]) == [(a.matching.dscp, a.action.dscp), (b.matching.dscp, b.action.dscp), (c.matching.dscp, c.action.dscp)]
  {
    assert [a, b, c][1..] == [b, c];
    assert [b, c][1..] == [c];
    assert [c][1..] == [];
    assert DscpPairs([c]) == [(c.matching.dscp, c.action.dscp)];
    assert DscpPairs([b, c]) == [(b.matching.dscp, b.action.dscp)] + DscpPairs([c]);
  }

  /** Every request handed on resubmits to tables 10 and 0, matches meta 0x00/0x02 and uses
      br-int exactly for a late-bound port; a single switch leaves the DSCP unmatched, any
      other matches one (given a non-negative configured DSCP).
      Nothing is handed on for an intermediate queue unless every switch gets flow-mods. */
  lemma IeReserveShape(f: FqReq, sendAll: bool, dscp: int)
    requires f.espq.Some?
    ensures !sendAll && f.espq.value.queuenum <= 1 ==> IeReserve(f, sendAll, dscp) == Value([])
    ensures IeReserve(f, sendAll, dscp).Value?
    ensures forall c :: c in IeReserve(f, sendAll, dscp).v ==>
      c.resub == Some("10 0") && c.matching.meta == Some("0x00/0x02") &&
      c.swid == (if f.espq.value.port == -128 then Some("br-int") else f.swid) &&
      (f.singleSwitch ==> c.matching.dscp == -1) && (!f.singleSwitch && dscp >= 0 ==> c.matching.dscp >= 0)
    ensures f.singleSwitch && (sendAll || f.espq.value.queuenum > 1) ==> |IeReserve(f, sendAll, dscp).v| == 1
  {
  }

  // ---- configuration -------------------------------------------------------------------------

  /** The settings of the "fqmgr" and "default" sections that the manager uses. */
  datatype FqCfg = FqCfg(qcheck: int, hcheck: int, dscp: int, sendAll: bool,
                         ssqCmd: Option<string>, switchHosts: Option<string>)

  /** Reading the configuration: queue checks at least every 5 seconds (default 5), host
      checks no more often than every 30 (default 180), default DSCP 42, and flow-mods on
      every switch unless the queue type is "endpoint" (or unset). */
  function FqConfig(cfg: Network.Config): (c: FqCfg)
    ensures c.qcheck >= 5 && c.hcheck >= 30
    ensures Network.Get(cfg, "fqmgr", "queue_check").None? ==> c.qcheck == 5
    ensures Network.Get(cfg, "fqmgr", "host_check").None? ==> c.hcheck == 180
    ensures Network.Get(cfg, "fqmgr", "queue_check").Some? && Atoll(Network.Get(cfg, "fqmgr", "queue_check").value) >= 5 ==>
      c.qcheck == Atoll(Network.Get(cfg, "fqmgr", "queue_check").value)
    ensures Network.Get(cfg, "fqmgr", "host_check").Some? && Atoll(Network.Get(cfg, "fqmgr", "host_check").value) >= 30 ==>
      c.hcheck == Atoll(Network.Get(cfg, "fqmgr", "host_check").value)
    ensures c.sendAll <==> Network.Get(cfg, "default", "queue_type").Some? && Network.Get(cfg, "default", "queue_type").value != "endpoint"
  {
    var q := Network.Get(cfg, "fqmgr", "queue_check");
    var h := Network.Get(cfg, "fqmgr", "host_check");
    var d := Network.Get(cfg, "fqmgr", "default_dscp");
    var qt := Network.Get(cfg, "default", "queue_type");
    FqCfg(if q.None? then 5 else if Atoll(q.value) < 5 then 5 else Atoll(q.value),
          if h.None? then 180 else if Atoll(h.value) < 30 then 30 else Atoll(h.value),
          if d.None? then 42 else Atoll(d.value),
          qt.Some? && qt.value != "endpoint",
          Network.Get(cfg, "fqmgr", "ssq_cmd"), Network.Get(cfg, "fqmgr", "switch_hosts"))
  }
}
