/** Request checks of the mirroring API (managers/http_mirror_api.go): mirror names, the
    start/end times, VLAN lists, options, the grouping of mirrored ports by physical host,
    and the status rules of a delete. */
module MirrorApi {
  import opened Wrappers
  import opened Strs
  import opened Nums

  // ---- mirror names ----------------------------------------------------------------------

  /** `generateMirrorName`: the next id is the clock, or one more than the last id when the
      clock has not moved past it. */
  function NextId(last: int, now: int): (r: int)
    ensures r > last && r >= now
    ensures now > last ==> r == now
    ensures now <= last ==> r == last + 1
  {
    if now <= last then last + 1 else now
  }

  /** "mir-" followed by the id in `%x` form. */
  function MirrorName(id: int): string
  {
    "mir-" + (if id < 0 then "-" + HexStr(-id) else HexStr(id))
  }

  /** The generator of mirror names, with the last id it handed out. */
  class MirrorIds {
    var lastid: int

    constructor ()
      ensures lastid == 0
    {
      lastid := 0;
    }

    method Generate(now: int) returns (name: string)
      modifies this
      ensures lastid == NextId(old(lastid), now) && name == MirrorName(lastid)
    {
      var t := now;
      if t <= lastid {
        t := lastid + 1;
      }
      lastid := t;
      name := MirrorName(t);
    }
  }

  lemma HexDigitInjective(a: nat, b: nat)
    requires a < 16 && b < 16 && HexDigit(a) == HexDigit(b)
    ensures a == b
  {
  }

  lemma {:induction false} HexStrInjective(a: nat, b: nat)
    requires HexStr(a) == HexStr(b)
    ensures a == b
    decreases a
  {
    var s := HexStr(a);
    if a >= 16 && b >= 16 {
      assert s[..|s| - 1] == HexStr(a / 16) && s[..|s| - 1] == HexStr(b / 16);
      HexStrInjective(a / 16, b / 16);
      HexDigitInjective(a % 16, b % 16);
    } else if a < 16 && b < 16 {
      HexDigitInjective(a, b);
    }
  }

  /** Names generated one after the other differ. */
  lemma SuccessiveNamesDiffer(last: int, now1: int, now2: int)
    requires last >= 0
    ensures var id1 := NextId(last, now1); MirrorName(NextId(id1, now2)) != MirrorName(id1)
  {
    var id1 := NextId(last, now1);
    var id2 := NextId(id1, now2);
    if MirrorName(id2) == MirrorName(id1) {
      assert MirrorName(id1)[4..] == HexStr(id1) && MirrorName(id2)[4..] == HexStr(id2);
      HexStrInjective(id1, id2);
    }
  }

  predicate NameChar(c: char)
  {
    'a' <= c <= 'z' || 'A' <= c <= 'Z' || '0' <= c <= '9' || c == '_' || c == '-'
  }

  /** `validName`: the pattern `^[a-zA-Z0-9_\-]+$`. */
  predicate ValidName(v: string)
  {
    |v| > 0 && forall i :: 0 <= i < |v| ==> NameChar(v[i])
  }

  lemma {:induction false} HexStrChars(n: nat)
    ensures forall i :: 0 <= i < |HexStr(n)| ==> NameChar(HexStr(n)[i])
  {
    if n >= 16 {
      HexStrChars(n / 16);
    }
  }

  /** A generated name passes the name check. */
  lemma GeneratedNameValid(id: nat)
    ensures ValidName(MirrorName(id))
  {
    HexStrChars(id);
    var s := MirrorName(id);
    forall i | 0 <= i < |s| ensures NameChar(s[i]) {
      if i >= 4 { assert s[i] == HexStr(id)[i - 4]; }
    }
  }

  // ---- times -----------------------------------------------------------------------------

  /** `gizmos.DEF_END_TS`, 1 January 2025 00:00:00 UTC (the constant is not part of this
      model; its value is the date its comment gives). */
  const DEF_END_TS: int := 1735689600

  datatype Times = Times(startt: int, endt: int, err: Option<string>)

  /** Error text of a failed `strconv.ParseInt` (its exact wording is not modelled). */
  const PARSE_ERR: string := "strconv.ParseInt: invalid number"

  /** The times as read, before they are checked, and whether the read succeeded. */
  datatype Span = Span(startt: int, endt: int, ok: bool)

  /** The reading half of `checkTimes(s, e)` at time `now`: an empty start is now; an end
      "+n" is start + n; "unbounded" is `DEF_END_TS`. The result of the start's parse is
      overwritten by the end's parse, so a bad start is noticed only with "unbounded". */
  function ReadSpan(s: string, e: string, now: int): (r: Span)
    requires e != ""
    ensures s == "" ==> r.startt == now
    ensures s != "" ==> r.startt == ParseInt(s, 0, 64).value
    ensures e[0] == '+' ==> r.endt == r.startt + ParseInt(e[1..], 0, 64).value && (r.ok <==> ParseInt(e[1..], 0, 64).ok)
    ensures e == "unbounded" ==> r.endt == DEF_END_TS && (r.ok <==> s == "" || ParseInt(s, 0, 64).ok)
    ensures e[0] != '+' && e != "unbounded" ==> r.endt == ParseInt(e, 0, 64).value && (r.ok <==> ParseInt(e, 0, 64).ok)
  {
    var sp := ParseInt(s, 0, 64);
    var startt := if s == "" then now else sp.value;
    if e[0] == '+' then
      var ep := ParseInt(e[1..], 0, 64);
      Span(startt, ep.value + startt, ep.ok)
    else if e == "unbounded" then Span(startt, DEF_END_TS, s == "" || sp.ok)
    else
      var fp := ParseInt(e, 0, 64);
      Span(startt, fp.value, fp.ok)
  }

  /** The checking half of `checkTimes`: without a parse error the start is raised to now,
      and the interval must be non-empty and at least the configured minimum. */
  function CheckSpan(sp: Span, now: int, minExp: Option<string>): (r: Times)
    ensures !sp.ok ==> r == Times(sp.startt, sp.endt, Some(PARSE_ERR))
    ensures sp.ok ==> r.startt == Max(now, sp.startt) && r.endt == sp.endt
    ensures r.err.None? <==> sp.ok && r.startt < r.endt &&
                             (minExp.Some? ==> r.endt - r.startt >= ParseInt(minExp.value, 0, 64).value)
  {
    if !sp.ok then Times(sp.startt, sp.endt, Some(PARSE_ERR))
    else
      var st := Max(now, sp.startt);
      if sp.endt <= st then
        Times(st, sp.endt, Some("end_time (" + IntStr(sp.endt) + ") <= start_time, (" + IntStr(st) + ")"))
      else match minExp
        case None => Times(st, sp.endt, None)
        case Some(t) =>
          var min := ParseInt(t, 0, 64).value;
          if sp.endt - st < min then
            Times(st, sp.endt, Some("end_time - start_time (" + IntStr(sp.endt - st) + ") is less than the minimum interval (" + IntStr(min) + ")"))
          else Times(st, sp.endt, None)
  }

  /** `checkTimes(s, e)` at time `now`, with the configured "min_mirror_expiration". An empty
      end panics when its first byte is sliced. An accepted request starts no earlier than
      now, ends after it starts and lasts at least the minimum. */
  function CheckTimes(s: string, e: string, now: int, minExp: Option<string>): (r: Go<Times>)
    ensures r.Panic? <==> e == ""
    ensures r.Value? && r.v.err.None? ==> now <= r.v.startt < r.v.endt
    ensures r.Value? && r.v.err.None? && minExp.Some? ==> r.v.endt - r.v.startt >= ParseInt(minExp.value, 0, 64).value
    ensures r.Value? && r.v.err.None? && s != "" ==> r.v.startt == Max(now, ParseInt(s, 0, 64).value)
    ensures r.Value? && e[0] == '+' ==>
      r.v.endt == (if s == "" then now else ParseInt(s, 0, 64).value) + ParseInt(e[1..], 0, 64).value &&
      (!ParseInt(e[1..], 0, 64).ok ==> r.v.err == Some(PARSE_ERR))
    ensures r.Value? && e == "unbounded" ==>
      r.v.endt == DEF_END_TS && (s != "" && !ParseInt(s, 0, 64).ok ==> r.v.err == Some(PARSE_ERR))
    ensures r.Value? && e[0] != '+' && e != "unbounded" ==>
      r.v.endt == ParseInt(e, 0, 64).value && (!ParseInt(e, 0, 64).ok ==> r.v.err == Some(PARSE_ERR))
  {
    if e == "" then Panic else Value(CheckSpan(ReadSpan(s, e, now), now, minExp))
  }

  function Max(a: int, b: int): int { if a >= b then a else b }

  /** A request for "now, for n seconds" is accepted as the interval [now, now + n]. */
  lemma CheckTimesRelative(now: int, n: nat)
    requires 1 <= n < Pow2(63)
    ensures CheckTimes("", "+" + NatStr(n), now, None) == Value(Times(now, now + n, None))
  {
    var e := "+" + NatStr(n);
    assert ReadSpan("", e, now) == Span(now, now + n, true) by {
      ParseInt0NatStr(n, 64);
      assert e[0] == '+' && e[1..] == NatStr(n);
    }
    assert CheckSpan(Span(now, now + n, true), now, None) == Times(now, now + n, None);
  }

  /** A request starting now with an "unbounded" end runs until `DEF_END_TS`. */
  lemma CheckTimesUnbounded(now: int)
    requires now < DEF_END_TS
    ensures CheckTimes("", "unbounded", now, None) == Value(Times(now, DEF_END_TS, None))
  {
    assert ReadSpan("", "unbounded", now) == Span(now, DEF_END_TS, true);
    assert CheckSpan(Span(now, DEF_END_TS, true), now, None) == Times(now, DEF_END_TS, None);
  }

  /** A start that does not parse is not reported when the end is relative: the start reads
      as 0 and is raised to now, and the end is counted from 0 rather than from now. */
  lemma BadStartMasked(now: int, n: nat)
    requires 0 <= now < n < Pow2(63)
    ensures CheckTimes("x", "+" + NatStr(n), now, None) == Value(Times(now, n, None))
  {
    var e := "+" + NatStr(n);
    assert ReadSpan("x", e, now) == Span(0, n, true) by {
      ParseInt0NatStr(n, 64);
      assert e[0] == '+' && e[1..] == NatStr(n);
      BadStartReadsZero();
    }
    assert CheckSpan(Span(0, n, true), now, None) == Times(now, n, None);
  }

  /** With an "unbounded" end the same start is reported. */
  lemma BadStartUnbounded(now: int)
    ensures CheckTimes("x", "unbounded", now, None) == Value(Times(0, DEF_END_TS, Some(PARSE_ERR)))
  {
    BadStartReadsZero();
    assert ReadSpan("x", "unbounded", now) == Span(0, DEF_END_TS, false);
  }

  lemma BadStartReadsZero()
    ensures ParseInt("x", 0, 64) == Parsed(0, false)
  {
    assert ParseUint("x", 0, 64) == USyntax;
  }

  // ---- VLAN lists and options ------------------------------------------------------------

  /** The value `strconv.ParseInt(v, 10, 32)` gives an element (0 when it does not parse,
      the nearest bound when it is out of range). */
  function VlanVal(v: string): int { ParseInt(v, 10, 32).value }

  predicate VlanOk(v: string) { 0 <= VlanVal(v) <= 4095 }

  /** The first element the test `ok` rejects, as `validVlanList`'s loop finds it (the
      test is kept abstract here so the search does not depend on how a number parses). */
  function FirstBad(ss: seq<string>, ok: string -> bool): (r: Option<string>)
    ensures r.None? <==> forall i :: 0 <= i < |ss| ==> ok(ss[i])
  {
    if ss == [] then None
    else if !ok(ss[0]) then Some(ss[0])
    else
      assert forall i :: 1 <= i < |ss| ==> ss[1..][i - 1] == ss[i];
      FirstBad(ss[1..], ok)
  }

  /** Where the first rejected element is. */
  function FirstBadAt(ss: seq<string>, ok: string -> bool): (i: nat)
    requires FirstBad(ss, ok).Some?
    ensures i < |ss| && ss[i] == FirstBad(ss, ok).value && !ok(ss[i])
    ensures forall j :: 0 <= j < i ==> ok(ss[j])
  {
    if !ok(ss[0]) then 0
    else
      var k := FirstBadAt(ss[1..], ok);
      assert ss[k + 1] == ss[1..][k];
      assert forall j :: 1 <= j < k + 1 ==> ss[j] == ss[1..][j - 1];
      k + 1
  }

  /** `validVlanList`: an error naming the first element of the comma-separated list that
      is outside 0..4095. */
  function VlanListErr(v: string): (err: Option<string>)
    ensures err.None? <==> forall i :: 0 <= i < |Split(v, ',')| ==> VlanOk(Split(v, ',')[i])
  {
    var ss := Split(v, ',');
    var b := FirstBad(ss, VlanOk);
    if b.None? then None
    else
      var k := FirstBadAt(ss, VlanOk);
      assert k < |Split(v, ',')| && !VlanOk(Split(v, ',')[k]);
      Some("VLAN id is out of range: " + b.value)
  }

  /** The `%d` texts of numbers, joined with commas. */
  function NumList(ns: seq<nat>): (r: seq<string>)
    ensures |r| == |ns| && forall i :: 0 <= i < |ns| ==> r[i] == NatStr(ns[i])
  {
    if ns == [] then [] else [NatStr(ns[0])] + NumList(ns[1..])
  }

  /** A list of VLAN ids in 0..4095 written with `%d` is accepted. */
  lemma VlanListAccepts(ns: seq<nat>)
    requires |ns| >= 1 && forall i :: 0 <= i < |ns| ==> ns[i] <= 4095
    ensures VlanListErr(Join(NumList(ns), ',')) == None
  {
    var parts := NumList(ns);
    assert Pow2(12) == 4096;
    Pow2Mono(12, 31);
    forall i | 0 <= i < |parts| ensures ',' !in parts[i] && VlanOk(parts[i]) {
      assert AllDigits(parts[i]);
      ParseIntNatStr(ns[i], 32);
    }
    SplitJoin(parts, ',');
  }

  /** An empty list, or an element that is not a number, reads as VLAN 0 and passes. */
  lemma VlanListLax()
    ensures VlanListErr("") == None && VlanListErr("any") == None
  {
    assert ParseUint("any", 10, 32) == USyntax;
  }

  /** `validOption`: one of the five option literals. */
  predicate ValidOption(v: string)
  {
    v in {"flowmod", "df_default=true", "df_default=false", "df_inherit=true", "df_inherit=false"}
  }

  /** An option is valid exactly when it is "flowmod" or a `df_default`/`df_inherit`
      setting of "true" or "false". */
  lemma ValidOptionShape(v: string)
    ensures ValidOption(v) <==>
      (v == "flowmod" ||
       (|Split(v, '=')| == 2 && Split(v, '=')[0] in {"df_default", "df_inherit"} && Split(v, '=')[1] in {"true", "false"}))
  {
    var parts := Split(v, '=');
    if |parts| == 2 && parts[0] in {"df_default", "df_inherit"} && parts[1] in {"true", "false"} {
      JoinSplit(v, '=');
      assert v == parts[0] + "=" + parts[1];
      SettingText(parts[0], parts[1]);
    }
    if v != "flowmod" && ValidOption(v) {
      SettingSplits(v);
    }
  }

  lemma SettingText(f: string, x: string)
    requires f in {"df_default", "df_inherit"} && x in {"true", "false"}
    ensures ValidOption(f + "=" + x)
  {
    if f == "df_default" {
      if x == "true" { assert f + "=" + x == "df_default=true"; } else { assert f + "=" + x == "df_default=false"; }
    } else {
      if x == "true" { assert f + "=" + x == "df_inherit=true"; } else { assert f + "=" + x == "df_inherit=false"; }
    }
  }

  lemma SettingSplits(v: string)
    requires ValidOption(v) && v != "flowmod"
    ensures |Split(v, '=')| == 2 && Split(v, '=')[0] in {"df_default", "df_inherit"} && Split(v, '=')[1] in {"true", "false"}
  {
    var f := if v[3] == 'd' then "df_default" else "df_inherit";
    var x := if v[11] == 't' then "true" else "false";
    assert v == f + "=" + x;
    OptionSplit(f, x);
  }

  lemma OptionSplit(f: string, x: string)
    requires '=' !in f && '=' !in x
    ensures Split(f + "=" + x, '=') == [f, x]
  {
    SplitCons(f, x, '=');
  }

  // ---- request path ----------------------------------------------------------------------

  /** The mirror name of `getNameAndCookie`: the fourth '/'-segment of a path of exactly
      five segments, else "". (The cookie comes from the query string, whose parsing is not
      part of this model.) */
  function PathName(path: string): (name: string)
    ensures name != "" ==> |Split(path, '/')| == 5 && name == Split(path, '/')[3]
  {
    var tt := Split(path, '/');
    if |tt| == 5 then tt[3] else ""
  }

  /** The path of a mirror, /tegu/mirrors/<name>/, gives back its name. */
  lemma PathNameOfMirror(name: string)
    requires '/' !in name
    ensures PathName("/tegu/mirrors/" + name + "/") == name
  {
    var c := '/';
    MirrorPathText(name);
    MirrorPathTail(name);
    var s2 := "mirrors" + [c] + (name + [c] + "");
    var s3 := "tegu" + [c] + s2;
    SplitCons("tegu", s2, c);
    assert Split(s3, c) == ["tegu", "mirrors", name, ""];
    SplitCons("", s3, c);
  }

  lemma MirrorPathText(name: string)
    ensures "/tegu/mirrors/" + name + "/" == "" + ['/'] + ("tegu" + ['/'] + ("mirrors" + ['/'] + (name + ['/'] + "")))
  {
  }

  lemma MirrorPathTail(name: string)
    requires '/' !in name
    ensures Split("mirrors" + ['/'] + (name + ['/'] + ""), '/') == ["mirrors", name, ""]
  {
    SplitCons(name, "", '/');
    SplitCons("mirrors", name + ['/'] + "", '/');
  }

  // ---- grouping mirrored ports -----------------------------------------------------------

  /** What `validatePort` makes of a port: a VM with a physical host (its host and MAC), or
      unusable (an error, or no physical host). The port lookup is not part of this model. */
  datatype PortInfo = PortOk(phost: string, mac: string) | PortBad

  datatype MirrorInfo = MirrorInfo(name: string, physhost: string, ports: seq<string>, err: Option<string>)

  /** The grouping loop's state: groups by physical host, the next group index, the bad ports,
      whether a port was valid, and (for the proofs) the index each group was named with. */
  datatype Grouping = Grouping(namemap: map<string, MirrorInfo>, ix: nat, bad: seq<string>, valid: bool,
                               idx: map<string, nat>)

  function GroupName(name: string, k: nat): string { name + "_" + NatStr(k) }

  /** One port: a valid port joins the group of its host, made with the next index when the
      host has none yet; an unusable port joins the bad ports. */
  function Step(g: Grouping, p: string, name: string, check: string -> PortInfo): Grouping
  {
    match check(p)
    case PortBad => g.(bad := g.bad + [p])
    case PortOk(ph, mac) =>
      if ph !in g.namemap || g.namemap[ph].name == "" then
        g.(namemap := g.namemap[ph := MirrorInfo(GroupName(name, g.ix), ph, [mac], None)], ix := g.ix + 1,
           valid := true, idx := g.idx[ph := g.ix])
      else
        var nm := g.namemap[ph];
        g.(namemap := g.namemap[ph := MirrorInfo(nm.name, nm.physhost, nm.ports + [mac], None)], valid := true)
  }

  function Group(ports: seq<string>, name: string, check: string -> PortInfo): Grouping
  {
    if ports == [] then Grouping(map[], 0, [], false, map[])
    else Step(Group(ports[..|ports| - 1], name, check), ports[|ports| - 1], name, check)
  }

  /** The groups and error `validatePorts` returns once the loop is done. The final loop that
      would name a lone group without its index renames a copy of each entry, so the names
      keep their index. */
  function Finish(g: Grouping): (r: (map<string, MirrorInfo>, Option<string>))
  {
    var nm := if |g.bad| > 0 then g.namemap["_badports_" := MirrorInfo("_badports_", "", g.bad, Some("Invalid ports found."))]
              else g.namemap;
    (nm, if g.valid then None else Some("No valid ports found."))
  }

  /** `validatePorts(ports, name)`. */
  method ValidatePorts(ports: seq<string>, name: string, check: string -> PortInfo)
    returns (plist: map<string, MirrorInfo>, err: Option<string>)
    ensures (plist, err) == Finish(Group(ports, name, check))
  {
    var valid := false;
    var namemap: map<string, MirrorInfo> := map[];
    var ix := 0;
    var badports: seq<string> := [];
    for i := 0 to |ports|
      invariant var g := Group(ports[..i], name, check);
        namemap == g.namemap && ix == g.ix && badports == g.bad && valid == g.valid
    {
      assert ports[..i + 1][..i] == ports[..i];
      var p := ports[i];
      match check(p)
      case PortOk(phys, mac) =>
        if phys !in namemap || namemap[phys].name == "" {
          var s := GroupName(name, ix);
          ix := ix + 1;
          namemap := namemap[phys := MirrorInfo(s, phys, [mac], None)];
        } else {
          var nm := namemap[phys];
          namemap := namemap[phys := MirrorInfo(nm.name, nm.physhost, nm.ports + [mac], None)];
        }
        valid := true;
      case PortBad =>
        badports := badports + [p];
    }
    assert ports[..|ports|] == ports;
    if !valid {
      err := Some("No valid ports found.");
    } else {
      err := None;
    }
    if |badports| > 0 {
      namemap := namemap["_badports_" := MirrorInfo("_badports_", "", badports, Some("Invalid ports found."))];
    }
    plist := namemap;
  }

  /** The groups are well formed: each host's group is named after its own index, indexes
      are below the counter and no two hosts share one. */
  ghost predicate Wf(g: Grouping, name: string)
  {
    && g.idx.Keys == g.namemap.Keys
    && (forall ph :: ph in g.namemap ==>
          g.namemap[ph].name == GroupName(name, g.idx[ph]) && g.namemap[ph].physhost == ph && g.idx[ph] < g.ix)
    && (forall a, b :: a in g.idx && b in g.idx && a != b ==> g.idx[a] != g.idx[b])
  }

  lemma {:induction false} GroupWf(ports: seq<string>, name: string, check: string -> PortInfo)
    ensures Wf(Group(ports, name, check), name)
  {
    if ports != [] {
      GroupWf(ports[..|ports| - 1], name, check);
      StepWf(Group(ports[..|ports| - 1], name, check), ports[|ports| - 1], name, check);
    }
  }

  lemma StepWf(g: Grouping, p: string, name: string, check: string -> PortInfo)
    requires Wf(g, name)
    ensures Wf(Step(g, p, name, check), name)
  {
    var g1 := Step(g, p, name, check);
    if check(p).PortOk? {
      var ph := check(p).phost;
      if ph !in g.namemap || g.namemap[ph].name == "" {
        assert ph !in g.namemap;
        forall a, b | a in g1.idx && b in g1.idx && a != b ensures g1.idx[a] != g1.idx[b] {
          if a != ph && b != ph {
            assert g1.idx[a] == g.idx[a] && g1.idx[b] == g.idx[b];
          }
        }
      }
    }
  }

  /** A port is valid in the grouping exactly when some port is. */
  lemma {:induction false} GroupValid(ports: seq<string>, name: string, check: string -> PortInfo)
    ensures Group(ports, name, check).valid <==> exists i :: 0 <= i < |ports| && check(ports[i]).PortOk?
  {
    if ports != [] {
      var init := ports[..|ports| - 1];
      GroupValid(init, name, check);
      if exists i :: 0 <= i < |init| && check(init[i]).PortOk? {
        var i :| 0 <= i < |init| && check(init[i]).PortOk?;
        assert ports[i] == init[i];
      }
      if exists i :: 0 <= i < |ports| && check(ports[i]).PortOk? {
        var i :| 0 <= i < |ports| && check(ports[i]).PortOk?;
        if i < |init| { assert init[i] == ports[i]; }
      }
    }
  }

  /** The bad ports are the unusable ones, in order. */
  function Unusable(ports: seq<string>, check: string -> PortInfo): seq<string>
  {
    if ports == [] then []
    else Unusable(ports[..|ports| - 1], check) + (if check(ports[|ports| - 1]).PortBad? then [ports[|ports| - 1]] else [])
  }

  lemma {:induction false} GroupBad(ports: seq<string>, name: string, check: string -> PortInfo)
    ensures Group(ports, name, check).bad == Unusable(ports, check)
  {
    if ports != [] {
      GroupBad(ports[..|ports| - 1], name, check);
    }
  }

  /** Every valid port's MAC is in the group of its host, and every MAC in a group comes
      from a valid port on that host. */
  lemma {:induction false} GroupCovers(ports: seq<string>, name: string, check: string -> PortInfo)
    ensures var g := Group(ports, name, check);
      && (forall i :: 0 <= i < |ports| && check(ports[i]).PortOk? ==>
            check(ports[i]).phost in g.namemap && check(ports[i]).mac in g.namemap[check(ports[i]).phost].ports)
      && (forall ph, m :: ph in g.namemap && m in g.namemap[ph].ports ==>
            exists i :: 0 <= i < |ports| && check(ports[i]) == PortOk(ph, m))
  {
    if ports != [] {
      var init := ports[..|ports| - 1];
      var p := ports[|ports| - 1];
      GroupCovers(init, name, check);
      var g0, g := Group(init, name, check), Group(ports, name, check);
      GroupWf(init, name, check);
      forall i | 0 <= i < |ports| && check(ports[i]).PortOk?
        ensures check(ports[i]).phost in g.namemap && check(ports[i]).mac in g.namemap[check(ports[i]).phost].ports
      {
        if i < |init| { assert init[i] == ports[i]; }
      }
      forall ph, m | ph in g.namemap && m in g.namemap[ph].ports
        ensures exists i :: 0 <= i < |ports| && check(ports[i]) == PortOk(ph, m)
      {
        if check(p) == PortOk(ph, m) {
          assert check(ports[|ports| - 1]) == PortOk(ph, m);
        } else {
          assert ph in g0.namemap && m in g0.namemap[ph].ports;
          var i :| 0 <= i < |init| && check(init[i]) == PortOk(ph, m);
          assert ports[i] == init[i];
        }
      }
    }
  }

  lemma NatStrSuffix(name: string, a: nat, b: nat)
    requires GroupName(name, a) == GroupName(name, b)
    ensures a == b
  {
    var p := name + "_";
    assert GroupName(name, a)[|p|..] == NatStr(a);
    assert GroupName(name, b)[|p|..] == NatStr(b);
    NatStrInjective(a, b);
  }

  /** "No valid ports found." is the error exactly when no port is usable; otherwise there
      is no error. */
  lemma ValidatePortsErr(ports: seq<string>, name: string, check: string -> PortInfo)
    ensures var err := Finish(Group(ports, name, check)).1;
      && (err == Some("No valid ports found.") <==> forall i :: 0 <= i < |ports| ==> check(ports[i]).PortBad?)
      && (err != Some("No valid ports found.") ==> err == None)
  {
    GroupValid(ports, name, check);
  }

  /** A "_badports_" entry, carrying "Invalid ports found.", lists the unusable ports in
      order, and is there exactly when some port is unusable. */
  lemma ValidatePortsBad(ports: seq<string>, name: string, check: string -> PortInfo)
    requires forall i :: 0 <= i < |ports| && check(ports[i]).PortOk? ==> check(ports[i]).phost != "_badports_"
    ensures var plist := Finish(Group(ports, name, check)).0;
      && ("_badports_" in plist <==> Unusable(ports, check) != [])
      && ("_badports_" in plist ==> plist["_badports_"].ports == Unusable(ports, check) &&
                                    plist["_badports_"].err == Some("Invalid ports found."))
  {
    GroupBad(ports, name, check);
    NoBadportsGroup(ports, name, check);
  }

  lemma NoBadportsGroup(ports: seq<string>, name: string, check: string -> PortInfo)
    requires forall i :: 0 <= i < |ports| && check(ports[i]).PortOk? ==> check(ports[i]).phost != "_badports_"
    ensures "_badports_" !in Group(ports, name, check).namemap
  {
    var g := Group(ports, name, check);
    GroupCovers(ports, name, check);
    GroupFilled(ports, name, check);
  }

  /** Each valid port's MAC is in the error-free group of its host. */
  lemma ValidatePortsCover(ports: seq<string>, name: string, check: string -> PortInfo)
    requires forall i :: 0 <= i < |ports| && check(ports[i]).PortOk? ==> check(ports[i]).phost != "_badports_"
    ensures var plist := Finish(Group(ports, name, check)).0;
      forall i :: 0 <= i < |ports| && check(ports[i]).PortOk? ==>
        check(ports[i]).phost in plist && check(ports[i]).mac in plist[check(ports[i]).phost].ports &&
        plist[check(ports[i]).phost].err.None?
  {
    GroupCovers(ports, name, check);
    GroupFilled(ports, name, check);
  }

  /** No two host groups share a name, and when only one index was used every group is
      still named `name_0`: the final renaming loop changes copies only. */
  lemma ValidatePortsNames(ports: seq<string>, name: string, check: string -> PortInfo)
    ensures var g := Group(ports, name, check);
      forall a, b :: a in g.namemap && b in g.namemap && a != b ==> g.namemap[a].name != g.namemap[b].name
    ensures var g := Group(ports, name, check);
      g.ix == 1 ==> forall ph :: ph in g.namemap ==> g.namemap[ph].name == name + "_0"
  {
    var g := Group(ports, name, check);
    GroupWf(ports, name, check);
    forall a, b | a in g.namemap && b in g.namemap && a != b
      ensures g.namemap[a].name != g.namemap[b].name
    {
      if g.namemap[a].name == g.namemap[b].name {
        NatStrSuffix(name, g.idx[a], g.idx[b]);
      }
    }
  }

  /** Every host group has a port and no error. */
  ghost predicate Filled(g: Grouping)
  {
    forall ph :: ph in g.namemap ==> g.namemap[ph].ports != [] && g.namemap[ph].err.None?
  }

  lemma {:induction false} GroupFilled(ports: seq<string>, name: string, check: string -> PortInfo)
    ensures Filled(Group(ports, name, check))
  {
    if ports != [] {
      var g := Group(ports[..|ports| - 1], name, check);
      GroupFilled(ports[..|ports| - 1], name, check);
      var g1 := Step(g, ports[|ports| - 1], name, check);
      forall ph | ph in g1.namemap ensures g1.namemap[ph].ports != [] && g1.namemap[ph].err.None? {
        if !(check(ports[|ports| - 1]).PortOk? && ph == check(ports[|ports| - 1]).phost) {
          assert g1.namemap[ph] == g.namemap[ph];
        }
      }
    }
  }

  // ---- delete ----------------------------------------------------------------------------

  /** The parts of a mirror reservation the delete consults. */
  datatype Mirror = Mirror(usrkey: string, tenant: string)

  /** Requests sent to the reservation manager. */
  datatype RmReq = ReqDel(name: string, cookie: string) | ReqChkpt

  datatype Reply = Reply(code: int, msg: string, sent: seq<RmReq>)

  /** `mirror_delete`: the mirror named by the path is looked up (with the cookie) in the
      reservation manager; 404 when it is not found, 401 for a cookie that is not its key,
      401 when the caller's project does not own it, each checked in that order; else the
      delete is sent, a checkpoint is asked for when the delete succeeded, and the reply
      is 204. */
  function MirrorDelete(path: string, cookie: string, projid: string,
                        lookup: (string, string) -> Option<Mirror>, delOk: bool): (r: Reply)
    ensures var m := lookup(PathName(path), cookie);
      && (r.code == 404 <==> m.None?)
      && (r.code == 401 <==> m.Some? && (m.value.usrkey != cookie || m.value.tenant != projid))
      && (r.code == 204 <==> m.Some? && m.value.usrkey == cookie && m.value.tenant == projid)
      && (r.sent != [] <==> r.code == 204)
      && (r.code == 204 ==> r.sent[0] == ReqDel(PathName(path), cookie) && (|r.sent| == 2 <==> delOk))
  {
    var name := PathName(path);
    match lookup(name, cookie)
    case None => Reply(404, "Not found.", [])
    case Some(mirror) =>
      if mirror.usrkey != cookie then Reply(401, "Unauthorized.", [])
      else if mirror.tenant != projid then Reply(401, "Unauthorized: you don't own this mirror.", [])
      else Reply(204, "", [ReqDel(name, cookie)] + (if delOk then [ReqChkpt] else []))
  }
}
