/** The agent manager (managers/agent.go): the registry of connected agents, the
    one-agent and every-agent senders, the mac-to-phost and intermediate-queue requests
    and the DSCP list shifted for flow-mods. The session manager's socket writes are the
    `Write` values the methods return. */
module Agent {
  import opened Wrappers
  import opened Strs
  import opened Nums
  import Network

  /** A connected agent; its JSON input cache is not modelled. */
  datatype AgentRec = AgentRec(id: string)

  /** What is written to an agent: a plain text message (REQ_SENDALL/REQ_SENDONE), or an
      `action_list` command holding one action. */
  datatype Payload =
    | Text(s: string)
    | Cmd(ctype: string, atype: string, hosts: seq<string>, dscps: string)

  /** One `smgr.Write(id, msg)`. */
  datatype Write = Write(id: string, msg: Payload)

  // ---- shift_values --------------------------------------------------------------------

  /** Each token read with `clike.Atoi` and shifted left two places, printed with `%d`. */
  function Shifts(toks: seq<string>): (r: seq<string>)
    ensures |r| == |toks|
    ensures forall i :: 0 <= i < |toks| ==> r[i] == IntStr(Atoll(toks[i]) * 4)
  {
    seq(|toks|, i requires 0 <= i < |toks| => IntStr(Atoll(toks[i]) * 4))
  }

  /** The shifted list: the tokens of `list` (split on single spaces) shifted, joined with
      single spaces. */
  function Shifted(list: string): string
  {
    Join(Shifts(Split(list, ' ')), ' ')
  }

  /** `shift_values(list)`: builds the shifted list token by token. */
  method ShiftValues(list: string) returns (newList: string)
    ensures newList == Shifted(list)
  {
    var toks := Split(list, ' ');
    ghost var all := Shifts(toks);
    newList := "";
    var sep := "";
    for i := 0 to |toks|
      invariant i == 0 ==> newList == "" && sep == ""
      invariant i > 0 ==> newList == Join(all[..i], ' ') && sep == " "
    {
      var piece := IntStr(Atoll(toks[i]) * 4);
      assert piece == all[i];
      if i > 0 {
        JoinSnoc(all[..i], piece, ' ');
        TakeSnoc(all, i);
      } else {
        assert all[..1] == [piece];
      }
      newList := newList + sep + piece;
      sep := " ";
    }
    assert all[..|toks|] == all;
  }

  /** Joining one more piece adds the separator and the piece. */
  lemma {:induction false} JoinSnoc(ps: seq<string>, p: string, c: char)
    requires |ps| >= 1
    ensures Join(ps + [p], c) == Join(ps, c) + [c] + p
  {
    if |ps| > 1 {
      JoinSnoc(ps[1..], p, c);
      assert (ps + [p])[1..] == ps[1..] + [p];
    } else {
      assert (ps + [p])[1..] == [p];
    }
  }

  /** The shifted list has as many space-separated tokens as the original, and each one
      reads back as four times the original token's value. */
  lemma ShiftedTokens(list: string)
    ensures |Split(Shifted(list), ' ')| == |Split(list, ' ')|
    ensures forall i :: 0 <= i < |Split(list, ' ')| ==>
      Atoll(Split(Shifted(list), ' ')[i]) == 4 * Atoll(Split(list, ' ')[i])
  {
    var toks := Split(list, ' ');
    var out := Shifts(toks);
    forall i | 0 <= i < |out|
      ensures ' ' !in out[i]
    {
      IntStrNoSpace(Atoll(toks[i]) * 4);
    }
    SplitJoin(out, ' ');
    forall i | 0 <= i < |toks|
      ensures Atoll(out[i]) == 4 * Atoll(toks[i])
    {
      AtollIntStr(Atoll(toks[i]) * 4);
    }
  }

  /** The default list of priority DSCP values. */
  const DEFAULT_DSCPS: string := "40 41 42"

  /** The default DSCP values 40, 41 and 42 become 160, 164 and 168. */
  lemma ShiftedDefault()
    ensures Shifted(DEFAULT_DSCPS) == "160 164 168"
  {
    DefaultTokens();
    Shifts3("40", "41", "42");
    DefaultValues();
    Join3("160", "164", "168", ' ');
    DefaultText();
  }

  lemma Shifts3(x: string, y: string, z: string)
    ensures Shifts([x, y, z]) == [IntStr(Atoll(x) * 4), IntStr(Atoll(y) * 4), IntStr(Atoll(z) * 4)]
  {
    var r := Shifts([x, y, z]);
    assert r[0] == IntStr(Atoll(x) * 4);
    assert r[1] == IntStr(Atoll(y) * 4);
    assert r[2] == IntStr(Atoll(z) * 4);
  }

  lemma Join3(a: string, b: string, d: string, c: char)
    ensures Join([a, b, d], c) == a + [c] + b + [c] + d
  {
    assert [a, b, d][1..] == [b, d];
    assert [b, d][1..] == [d];
    assert Join([b, d], c) == b + [c] + d;
    assert Join([a, b, d], c) == a + [c] + (b + [c] + d);
  }

  lemma Split3(a: string, b: string, d: string, c: char)
    requires c !in a && c !in b && c !in d
    ensures Split(a + [c] + b + [c] + d, c) == [a, b, d]
  {
    SplitCons(b, d, c);
    assert a + [c] + b + [c] + d == a + [c] + (b + [c] + d);
    SplitCons(a, b + [c] + d, c);
  }

  lemma DefaultText()
    ensures "160" + [' '] + "164" + [' '] + "168" == "160 164 168"
    ensures "40" + [' '] + "41" + [' '] + "42" == DEFAULT_DSCPS
  {
  }

  lemma DefaultTokens()
    ensures Split(DEFAULT_DSCPS, ' ') == ["40", "41", "42"]
  {
    DefaultText();
    Split3("40", "41", "42", ' ');
  }

  lemma DefaultValues()
    ensures IntStr(Atoll("40") * 4) == "160"
    ensures IntStr(Atoll("41") * 4) == "164"
    ensures IntStr(Atoll("42") * 4) == "168"
  {
    TwoDigits(40);
    ThreeDigits(160);
    ShiftOne(40, "40", "160");
    TwoDigits(41);
    ThreeDigits(164);
    ShiftOne(41, "41", "164");
    TwoDigits(42);
    ThreeDigits(168);
    ShiftOne(42, "42", "168");
  }

  lemma ShiftOne(n: nat, text: string, shifted: string)
    requires text == NatStr(n) && shifted == NatStr(4 * n)
    ensures IntStr(Atoll(text) * 4) == shifted
  {
    AtollNatStr(n);
  }

  lemma TwoDigits(n: nat)
    requires 10 <= n < 100
    ensures NatStr(n) == [('0' as int + n / 10) as char, ('0' as int + n % 10) as char]
  {
  }

  lemma ThreeDigits(n: nat)
    requires 100 <= n < 1000
    ensures NatStr(n) == [('0' as int + n / 100) as char, ('0' as int + n / 10 % 10) as char, ('0' as int + n % 10) as char]
  {
    TwoDigits(n / 10);
  }

  // ---- requests built for an agent ----------------------------------------------------------

  /** `send_mac2phost`: no request for a nil or empty host list; otherwise a
      `map_mac2phost` action over the list split on spaces. */
  function Mac2PhostCmd(hlist: Option<string>): (r: Option<Payload>)
    ensures r.None? <==> hlist.None? || hlist.value == ""
    ensures r.Some? ==>
      (r.value.Cmd? && r.value.atype == "map_mac2phost" && Join(r.value.hosts, ' ') == hlist.value)
  {
    if hlist.None? || hlist.value == "" then None
    else
      JoinSplit(hlist.value, ' ');
      Some(Cmd("action_list", "map_mac2phost", Split(hlist.value, ' '), ""))
  }

  /** `send_intermedq`: no request for a nil or empty host list; otherwise an
      `intermed_queues` action over the list split on spaces, carrying the DSCP list. */
  function IntermedqCmd(hlist: Option<string>, dscp: string): (r: Option<Payload>)
    ensures r.None? <==> hlist.None? || hlist.value == ""
    ensures r.Some? ==>
      (r.value.Cmd? && r.value.atype == "intermed_queues" && r.value.dscps == dscp &&
       Join(r.value.hosts, ' ') == hlist.value)
  {
    if hlist.None? || hlist.value == "" then None
    else
      JoinSplit(hlist.value, ' ');
      Some(Cmd("action_list", "intermed_queues", Split(hlist.value, ' '), dscp))
  }

  /** The hosts of a request are exactly the space-separated words of the list, none of
      them holding a space. */
  lemma HostsAreWords(hlist: string, dscp: string)
    requires hlist != ""
    ensures Mac2PhostCmd(Some(hlist)).value.hosts == Split(hlist, ' ')
    ensures IntermedqCmd(Some(hlist), dscp).value.hosts == Split(hlist, ' ')
    ensures forall h :: h in Split(hlist, ' ') ==> ' ' !in h
  {
  }

  /** The configuration the agent manager reads: the "pri_dscp" setting of the "default"
      section replaces the default list, which is then shifted. */
  function DscpSetting(cfg: Network.Config): (list: string)
    ensures Network.Get(cfg, "default", "pri_dscp").None? ==> list == DEFAULT_DSCPS
  {
    Network.Get(cfg, "default", "pri_dscp").GetOr(DEFAULT_DSCPS)
  }

  // ---- the registry --------------------------------------------------------------------

  /** The agent manager's state: the agents by id, the host list last received from the
      flow-mod manager and the shifted DSCP list. */
  class AgentMgr {
    var agents: map<string, AgentRec>
    var hostList: string
    var dscpList: string

    /** Every agent is filed under its own id. */
    predicate Valid()
      reads this
    {
      forall k :: k in agents ==> agents[k].id == k
    }

    /** `Agent_mgr` start-up: no agents, no host list, and the configured (or default)
        DSCP list shifted. */
    constructor(cfg: Network.Config)
      ensures Valid()
      ensures agents == map[] && hostList == ""
      ensures dscpList == Shifted(DscpSetting(cfg))
    {
      agents := map[];
      hostList := "";
      var d := ShiftValues(DscpSetting(cfg));
      dscpList := d;
    }

    /** `Mk_agent(aid)`: registers the agent, replacing any agent with the same id. */
    method MkAgent(aid: string) returns (na: AgentRec)
      requires Valid()
      modifies this
      ensures Valid()
      ensures na.id == aid
      ensures agents == old(agents)[aid := na]
      ensures hostList == old(hostList) && dscpList == old(dscpList)
    {
      na := AgentRec(aid);
      agents := agents[aid := na];
    }

    /** ST_DISC: drops the agent when it is registered; otherwise nothing changes. */
    method Disconnect(id: string)
      requires Valid()
      modifies this
      ensures Valid()
      ensures agents == old(agents) - {id}
      ensures id !in old(agents) ==> agents == old(agents)
      ensures hostList == old(hostList) && dscpList == old(dscpList)
    {
      if id in agents {
        agents := agents - {id};
      }
    }

    /** `send2one`/`sendbytes2one`: one write to the first agent in map order (which Go
        leaves unspecified), or nothing when no agent is connected. */
    method Send2One(msg: Payload) returns (w: seq<Write>)
      ensures |w| <= 1
      ensures |w| == 1 <==> agents != map[]
      ensures |w| == 1 ==> w[0].id in agents && w[0].msg == msg
    {
      if agents == map[] {
        return [];
      }
      assert agents.Keys != {} by {
        var k :| k in agents;
      }
      var id :| id in agents.Keys;
      w := [Write(id, msg)];
    }

    /** `send2all`: one write to every agent, in map order. */
    method Send2All(msg: string) returns (w: seq<Write>)
      ensures |w| == |agents.Keys|
      ensures forall i :: 0 <= i < |w| ==> w[i].msg == Text(msg) && w[i].id in agents
      ensures forall k :: k in agents ==> exists i :: 0 <= i < |w| && w[i].id == k
      ensures forall i, j :: 0 <= i < j < |w| ==> w[i].id != w[j].id
    {
      w := [];
      var todo := agents.Keys;
      while todo != {}
        invariant todo <= agents.Keys
        invariant |w| + |todo| == |agents.Keys|
        invariant forall i :: 0 <= i < |w| ==> w[i].msg == Text(msg) && w[i].id in agents && w[i].id !in todo
        invariant forall k :: k in agents && k !in todo ==> exists i :: 0 <= i < |w| && w[i].id == k
        invariant forall i, j :: 0 <= i < j < |w| ==> w[i].id != w[j].id
        decreases todo
      {
        var id :| id in todo;
        ghost var w0 := w;
        w := w + [Write(id, Text(msg))];
        assert w[|w0|].id == id;
        assert forall i :: 0 <= i < |w0| ==> w[i] == w0[i];
        todo := todo - {id};
      }
    }

    /** `send_mac2phost`: the request goes to one agent, when there is a non-empty host
        list and an agent to take it. */
    method SendMac2Phost(hlist: Option<string>) returns (w: seq<Write>)
      ensures |w| <= 1
      ensures |w| == 1 <==> Mac2PhostCmd(hlist).Some? && agents != map[]
      ensures |w| == 1 ==> w[0].id in agents && Some(w[0].msg) == Mac2PhostCmd(hlist)
    {
      var cmd := Mac2PhostCmd(hlist);
      w := [];
      if cmd.Some? {
        w := Send2One(cmd.value);
      }
    }

    /** `send_intermedq`: the request goes to one agent, when there is a non-empty host
        list and an agent to take it. */
    method SendIntermedq(hlist: Option<string>, dscp: string) returns (w: seq<Write>)
      ensures |w| <= 1
      ensures |w| == 1 <==> IntermedqCmd(hlist, dscp).Some? && agents != map[]
      ensures |w| == 1 ==> w[0].id in agents && Some(w[0].msg) == IntermedqCmd(hlist, dscp)
    {
      var cmd := IntermedqCmd(hlist, dscp);
      w := [];
      if cmd.Some? {
        w := Send2One(cmd.value);
      }
    }

    /** ST_NEW: the agent is registered and, when a host list is known, it (or another
        agent) is asked for the mac-to-phost map and the intermediate queues at once. */
    method NewSession(aid: string) returns (w: seq<Write>)
      requires Valid()
      modifies this
      ensures Valid()
      ensures agents == old(agents)[aid := AgentRec(aid)]
      ensures hostList == old(hostList) && dscpList == old(dscpList)
      ensures hostList == "" ==> w == []
      ensures hostList != "" ==>
        (|w| == 2 && w[0].id in agents && w[1].id in agents &&
         w[0].msg == Cmd("action_list", "map_mac2phost", Split(hostList, ' '), "") &&
         w[1].msg == Cmd("action_list", "intermed_queues", Split(hostList, ' '), dscpList))
    {
      var na := MkAgent(aid);
      assert aid in agents;
      w := [];
      if hostList != "" {
        var w1 := SendMac2Phost(Some(hostList));
        var w2 := SendIntermedq(Some(hostList), dscpList);
        w := w1 + w2;
      }
    }

    /** REQ_CHOSTLIST: a host list from the flow-mod manager replaces the known one. */
    method SetHostList(data: Option<string>)
      modifies this
      ensures hostList == (if data.Some? then data.value else old(hostList))
      ensures agents == old(agents) && dscpList == old(dscpList)
    {
      if data.Some? {
        hostList := data.value;
      }
    }
  }
}
