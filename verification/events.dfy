/** Event listeners of the network manager (managers/events.go): pulling named fields out
    of an event payload as strings, and turning an endpoint event into an endpoint request
    for the network manager. */
module Events {
  import opened Wrappers
  import opened Strs
  import opened Nums

  /** A value found in an event payload, by its dynamic type. `Float` carries the `%.3f`
      text of the number. */
  datatype PVal =
    | Str(s: string)
    | StrPtr(p: Option<string>)
    | Bool(b: bool)
    | Int(n: int)
    | Float(fixed3: string)
    | Other

  type Payload = map<string, PVal>

  /** The text a payload value is converted to, or None for a type that is not handled. */
  function Conv(v: PVal): (r: Option<string>)
    ensures r.None? <==> v.Other?
  {
    match v
    case Str(s) => Some(s)
    case StrPtr(p) => Some(if p.Some? then p.value else "")
    case Bool(b) => Some(if b then "true" else "false")
    case Int(n) => Some(IntStr(n))
    case Float(t) => Some(t)
    case Other => None
  }

  /** Booleans become "true"/"false", a nil string pointer becomes "", and an integer
      becomes decimal text that reads back as the integer. */
  lemma ConvTexts(b: bool, n: int)
    ensures Conv(Bool(b)) == Some(if b then "true" else "false")
    ensures Conv(StrPtr(None)) == Some("")
    ensures Conv(Int(n)).Some? && Atoll(Conv(Int(n)).value) == n
  {
    AtollIntStr(n);
  }

  /** The field is present in the payload with a type that converts. */
  predicate Converts(p: Payload, name: string)
  {
    name in p && Conv(p[name]).Some?
  }

  /** The converted fields among `names`. */
  function Smap(names: seq<string>, p: Payload): (m: map<string, string>)
    ensures forall k :: k in m <==> k in names && Converts(p, k)
    ensures forall k :: k in m ==> k in p && Conv(p[k]) == Some(m[k])
  {
    map k | k in names && Converts(p, k) :: Conv(p[k]).value
  }

  /** The missing-things text: " " + name for every name that is absent or does not
      convert, in order. */
  function Missing(names: seq<string>, p: Payload): string
  {
    if names == [] then ""
    else (if Converts(p, names[0]) then "" else " " + names[0]) + Missing(names[1..], p)
  }

  /** The names that are absent or do not convert, in order. */
  function Failed(names: seq<string>, p: Payload): (r: seq<string>)
    ensures forall t :: t in r <==> t in names && !Converts(p, t)
  {
    if names == [] then []
    else (if Converts(p, names[0]) then [] else [names[0]]) + Failed(names[1..], p)
  }

  /** The failed names, each with a leading space. */
  function Prefixed(names: seq<string>): string
  {
    if names == [] then "" else " " + names[0] + Prefixed(names[1..])
  }

  /** The missing-things text lists exactly the failed names, each after one space. */
  lemma {:induction false} MissingIsFailed(names: seq<string>, p: Payload)
    ensures Missing(names, p) == Prefixed(Failed(names, p))
  {
    if names != [] {
      MissingIsFailed(names[1..], p);
      if !Converts(p, names[0]) {
        assert Failed(names, p) == [names[0]] + Failed(names[1..], p);
        assert ([names[0]] + Failed(names[1..], p))[1..] == Failed(names[1..], p);
      } else {
        assert Failed(names, p) == Failed(names[1..], p);
      }
    }
  }

  /** Every name is present with a handled type. */
  predicate AllConvert(names: seq<string>, p: Payload)
  {
    forall i :: 0 <= i < |names| ==> Converts(p, names[i])
  }

  /** Nothing is missing exactly when every name converts. */
  lemma {:induction false} MissingEmpty(names: seq<string>, p: Payload)
    ensures Missing(names, p) == "" <==> AllConvert(names, p)
  {
    if names != [] {
      MissingEmpty(names[1..], p);
      if Converts(p, names[0]) {
        assert forall i :: 1 <= i < |names| ==> names[i] == names[1..][i - 1];
        assert AllConvert(names, p) <==> AllConvert(names[1..], p);
      } else {
        assert |" " + names[0] + Missing(names[1..], p)| > 0;
      }
    }
  }

  /** One more name adds its own part at the end. */
  lemma {:induction false} MissingSnoc(names: seq<string>, t: string, p: Payload)
    ensures Missing(names + [t], p) == Missing(names, p) + (if Converts(p, t) then "" else " " + t)
  {
    if names == [] {
      assert [] + [t] == [t];
    } else {
      MissingSnoc(names[1..], t, p);
      assert (names + [t])[1..] == names[1..] + [t];
      assert (names + [t])[0] == names[0];
    }
  }

  /** `payload_2smap(e, what)`: every name of `what` (split on single spaces) that is in
      the payload with a handled type goes into the map as text; every other name is
      appended to the missing-things text. */
  method PayloadToSmap(p: Payload, what: string) returns (m: map<string, string>, missing: string)
    ensures m == Smap(Split(what, ' '), p)
    ensures missing == Missing(Split(what, ' '), p)
  {
    missing := "";
    var tokens := Split(what, ' ');
    m := map[];
    for i := 0 to |tokens|
      invariant m == Smap(tokens[..i], p)
      invariant missing == Missing(tokens[..i], p)
    {
      var t := tokens[i];
      var v := if t in p then p[t] else Other;
      MissingSnoc(tokens[..i], t, p);
      assert tokens[..i + 1] == tokens[..i] + [t];
      match Conv(v)
      case Some(text) =>
        m := m[t := text];
      case None =>
        missing := missing + " " + t;
    }
    assert tokens[..|tokens|] == tokens;
  }

  // ---- netev_endpt ------------------------------------------------------------------------

  /** The fields an endpoint event must carry. */
  const ENDPT_WHAT: string := "uuid owner mac ip phost action"
  const ENDPT_FIELDS: seq<string> := ["uuid", "owner", "mac", "ip", "phost", "action"]

  lemma EndptFields()
    ensures Split(ENDPT_WHAT, ' ') == ENDPT_FIELDS
  {
    forall i | 0 <= i < |ENDPT_FIELDS|
      ensures ' ' !in ENDPT_FIELDS[i]
    {
    }
    SplitJoin(ENDPT_FIELDS, ' ');
    EndptText();
  }

  lemma EndptText()
    ensures Join(ENDPT_FIELDS, ' ') == ENDPT_WHAT
  {
    var f := ENDPT_FIELDS;
    assert f[1..] == ["owner", "mac", "ip", "phost", "action"];
    assert f[2..] == ["mac", "ip", "phost", "action"];
    assert f[3..] == ["ip", "phost", "action"];
    assert f[4..] == ["phost", "action"];
    assert f[5..] == ["action"];
  }

  /** The converted fields hold all six endpoint fields. */
  predicate Complete(f: map<string, string>)
  {
    "uuid" in f && "owner" in f && "mac" in f && "ip" in f && "phost" in f && "action" in f
  }

  /** When every field converts, the converted fields are complete. */
  lemma SmapComplete(p: Payload)
    requires AllConvert(ENDPT_FIELDS, p)
    ensures Complete(Smap(ENDPT_FIELDS, p))
  {
    var f := ENDPT_FIELDS;
    assert Converts(p, f[0]) && Converts(p, f[1]) && Converts(p, f[2]);
    assert Converts(p, f[3]) && Converts(p, f[4]) && Converts(p, f[5]);
  }

  /** An endpoint as `gizmos.Mk_endpt` receives it: uuid, phost, owner, ip, mac and port. */
  datatype Endpt = Endpt(uuid: string, phost: string, owner: string, ip: string, mac: string, port: int)

  /** A reply to the event's sender: state and message. */
  datatype Reply = Reply(state: string, msg: string)

  /** What handling an endpoint event does: the REQ_NEW_ENDPT request sent to the network
      manager, if any, and the reply, if any. */
  datatype Handled = Handled(req: Option<Endpt>, reply: Option<Reply>)

  /** The action dispatch of `netev_endpt` for a complete payload: "add"/"mod" send the
      endpoint with its physical host and port -128; "del"/"delete" send it with no
      physical host and port -2 (which deletes it); any other action sends nothing. With
      an ack wanted the reply is OK after a request and ERROR otherwise. */
  function Dispatch(f: map<string, string>, ack: bool): (h: Handled)
    requires Complete(f)
    ensures h.req.Some? <==> f["action"] in {"add", "mod", "del", "delete"}
    ensures h.req.Some? ==>
      (h.req.value.uuid == f["uuid"] && h.req.value.owner == f["owner"] &&
       h.req.value.ip == f["ip"] && h.req.value.mac == f["mac"])
    ensures f["action"] in {"add", "mod"} ==> h.req.value.phost == f["phost"] && h.req.value.port == -128
    ensures f["action"] in {"del", "delete"} ==> h.req.value.phost == "" && h.req.value.port == -2
    ensures h.reply.Some? <==> ack
    ensures ack ==> h.reply.value.state == (if h.req.Some? then "OK" else "ERROR")
  {
    var okReply := if ack then Some(Reply("OK", "Got it")) else None;
    match f["action"]
    case "add" => Handled(Some(Endpt(f["uuid"], f["phost"], f["owner"], f["ip"], f["mac"], -128)), okReply)
    case "mod" => Handled(Some(Endpt(f["uuid"], f["phost"], f["owner"], f["ip"], f["mac"], -128)), okReply)
    case "del" => Handled(Some(Endpt(f["uuid"], "", f["owner"], f["ip"], f["mac"], -2)), okReply)
    case "delete" => Handled(Some(Endpt(f["uuid"], "", f["owner"], f["ip"], f["mac"], -2)), okReply)
    case _ =>
      Handled(None, if ack then Some(Reply("ERROR", "event json wasn't complete: payload missing valid action (add/del/mod)")) else None)
  }

  /** `netev_endpt(e)`: an event missing any of the six fields sends nothing (and replies
      ERROR naming the missing fields when an ack is wanted); a complete event goes to the
      action dispatch. */
  method NetevEndpt(p: Payload, ack: bool) returns (h: Handled)
    ensures !AllConvert(ENDPT_FIELDS, p) ==>
      h == Handled(None, if ack then Some(Reply("ERROR", "event json wasn't complete: payload missing things: " +
                                                       Prefixed(Failed(ENDPT_FIELDS, p)))) else None)
    ensures AllConvert(ENDPT_FIELDS, p) ==>
      Complete(Smap(ENDPT_FIELDS, p)) && h == Dispatch(Smap(ENDPT_FIELDS, p), ack)
  {
    EndptFields();
    var payload, missingStuff := PayloadToSmap(p, ENDPT_WHAT);
    MissingEmpty(ENDPT_FIELDS, p);
    MissingIsFailed(ENDPT_FIELDS, p);
    if missingStuff != "" {
      var reply := if ack then Some(Reply("ERROR", "event json wasn't complete: payload missing things: " + missingStuff)) else None;
      return Handled(None, reply);
    }
    SmapComplete(p);
    h := Dispatch(payload, ack);
  }
}
