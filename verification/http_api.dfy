/** Request handling of the HTTP API (managers/http_api.go): who may make a privileged
    request, reservation names, reservation deletion and the bookkeeping over the records
    of a POST or DELETE body. Answers from other managers are oracle parameters. */
module HttpApi {
  import opened Wrappers
  import opened Strs
  import opened Nums
  import Osif

  // ---- authorisation -------------------------------------------------------------------------

  /** `is_localhost`: the sender address, before any ":port", is 127.0.0.1. */
  function IsLocalhost(a: string): (r: bool)
    ensures r <==> Split(a, ':')[0] == "127.0.0.1"
  {
    Split(a, ':')[0] == "127.0.0.1"
  }

  /** The loopback address is local with or without a port; nothing that does not start
      with it is. */
  lemma LocalhostForms(port: string)
    ensures IsLocalhost("127.0.0.1") && IsLocalhost("127.0.0.1:" + port)
    ensures forall a :: IsLocalhost(a) ==> HasPrefix(a, "127.0.0.1")
  {
    assert "127.0.0.1:" + port == "127.0.0.1" + [':'] + port;
    SplitCons("127.0.0.1", port, ':');
    forall a | IsLocalhost(a) ensures HasPrefix(a, "127.0.0.1") {
      FirstPieceIsPrefix(a, ':');
    }
  }

  /** The first piece of a split is a prefix of the text. */
  lemma {:induction false} FirstPieceIsPrefix(s: string, c: char)
    ensures HasPrefix(s, Split(s, c)[0])
  {
    if |s| > 0 && s[0] != c {
      FirstPieceIsPrefix(s[1..], c);
    }
  }

  /** `token_has_osroles`: the OpenStack manager is asked "token roles" and the token is
      good when it reports no error. */
  function TokenHasRoles(token: string, roles: string, crack: (string, string) -> Result<Osif.Creds>): bool
  {
    Osif.HasAnyRoleReq(token + " " + roles, crack).1.None?
  }

  /** `validate_auth`: whether a privileged request is allowed under the `priv_auth`
      setting. */
  function ValidateAuth(privAuth: Option<string>, data: string, isToken: bool, validRoles: Option<string>,
                        crack: (string, string) -> Result<Osif.Creds>): (allowed: bool)
    ensures privAuth.None? || privAuth == Some("none") ==> allowed
    ensures (privAuth == Some("local") || privAuth == Some("localhost")) && !isToken ==> (allowed <==> IsLocalhost(data))
    ensures (privAuth == Some("token") || ((privAuth == Some("local") || privAuth == Some("localhost")) && isToken)) ==>
      (allowed <==> validRoles.Some? && TokenHasRoles(data, validRoles.value, crack))
    ensures privAuth.Some? && privAuth.value !in {"none", "local", "localhost", "token"} ==> !allowed
  {
    if privAuth.None? then true
    else match privAuth.value
      case "none" => true
      case "local" =>
        if !isToken then IsLocalhost(data) else validRoles.Some? && TokenHasRoles(data, validRoles.value, crack)
      case "localhost" =>
        if !isToken then IsLocalhost(data) else validRoles.Some? && TokenHasRoles(data, validRoles.value, crack)
      case "token" => validRoles.Some? && TokenHasRoles(data, validRoles.value, crack)
      case _ => false
  }

  /** In token mode a request is allowed exactly when the token, for its project, holds one
      of the roles (a token and role list free of spaces). */
  lemma TokenAuthIsRoleCheck(data: string, roles: string, crack: (string, string) -> Result<Osif.Creds>)
    requires ' ' !in data && ' ' !in roles
    ensures ValidateAuth(Some("token"), data, true, Some(roles), crack) <==> Osif.HasAnyRole(data, roles, crack).Ok?
  {
    SplitCons(data, roles, ' ');
    assert data + " " + roles == data + [' '] + roles;
  }

  // ---- reservation names ---------------------------------------------------------------------

  /** `k` zero characters. */
  function Zeros(k: nat): (z: string)
    ensures |z| == k && AllDigits(z)
  {
    if k == 0 then "" else "0" + Zeros(k - 1)
  }

  /** `%05d` of a natural number: zero-padded to at least five digits. */
  function Pad5(n: nat): (s: string)
    ensures |s| >= 5 && AllDigits(s)
  {
    var d := NatStr(n);
    var z := if |d| < 5 then Zeros(5 - |d|) else "";
    assert AllDigits(z + d) by {
      forall i | 0 <= i < |z + d| ensures IsDigit((z + d)[i]) {
        if i < |z| { assert (z + d)[i] == z[i]; } else { assert (z + d)[i] == d[i - |z|]; }
      }
    }
    z + d
  }

  /** Leading zeros do not change the value read from the front. */
  lemma {:induction false} ZerosValue(k: nat, s: string)
    requires AllDigits(s)
    ensures AllDigits(Zeros(k) + s) && DigitsFrom(Zeros(k) + s, 0) == DigitsFrom(s, 0)
  {
    assert AllDigits(Zeros(k) + s) by {
      forall i | 0 <= i < |Zeros(k) + s| ensures IsDigit((Zeros(k) + s)[i]) {
        if i < k { assert (Zeros(k) + s)[i] == Zeros(k)[i]; } else { assert (Zeros(k) + s)[i] == s[i - k]; }
      }
    }
    if k == 0 {
      assert Zeros(0) + s == s;
    } else {
      ZerosValue(k - 1, s);
      assert Zeros(k) == "0" + Zeros(k - 1);
      assert (Zeros(k) + s)[0] == '0';
      assert (Zeros(k) + s)[1..] == Zeros(k - 1) + s;
      assert DigitsFrom(Zeros(k) + s, 0) == DigitsFrom(Zeros(k - 1) + s, 0);
    }
  }

  /** Reading a padded number gives it back. */
  lemma Pad5Value(n: nat)
    ensures DigitsFrom(Pad5(n), 0) == n
  {
    var d := NatStr(n);
    ZerosValue(if |d| < 5 then 5 - |d| else 0, d);
    assert Zeros(0) + d == d;
    DigitsFromVal(d);
    NatStrRoundTrip(n);
  }

  /** `mk_resname` text: "res", the process id in hexadecimal, "_" and the padded seed. */
  function ResName(pid: nat, r: nat): string
  {
    "res" + HexStr(pid) + "_" + Pad5(r)
  }

  /** Within one process, different seeds give different names. */
  lemma ResNameInjective(pid: nat, a: nat, b: nat)
    requires ResName(pid, a) == ResName(pid, b)
    ensures a == b
  {
    var p := "res" + HexStr(pid) + "_";
    assert ResName(pid, a)[|p|..] == Pad5(a);
    assert ResName(pid, b)[|p|..] == Pad5(b);
    Pad5Value(a);
    Pad5Value(b);
  }

  /** The reservation name generator with its seed (`res_nmseed`). */
  class ResNamer {
    const pid: nat
    var seed: nat

    constructor(pid: nat, seed: nat)
      ensures this.pid == pid && this.seed == seed
    {
      this.pid := pid;
      this.seed := seed;
    }

    /** `mk_resname`: names the current seed and moves the seed on by one. */
    method MkResname() returns (name: string)
      modifies this
      ensures seed == old(seed) + 1
      ensures name == ResName(pid, old(seed))
    {
      var r := seed;
      seed := seed + 1;
      name := ResName(pid, r);
    }

  }

  /** Successive seeds, so successive calls, give different names. */
  lemma SuccessiveResNamesDiffer(pid: nat, r: nat)
    ensures ResName(pid, r) != ResName(pid, r + 1)
  {
    if ResName(pid, r) == ResName(pid, r + 1) {
      ResNameInjective(pid, r, r + 1);
    }
  }

  // ---- reservation deletion ------------------------------------------------------------------

  /** The request made to the reservation manager and the error reported. */
  datatype DelOutcome = DelOutcome(sent: Option<(string, string)>, err: Option<string>)

  /** `delete_reservation(tokens)`: "reservation name [cookie]" (2 or 3 tokens, the first
      being the command) asks the reservation manager to delete `name`, with cookie "" when
      none is given; the manager's error, if any, is the result. */
  function DeleteReservation(tokens: seq<string>, rmgr: (string, string) -> Option<string>): (r: DelOutcome)
    ensures r.sent.Some? <==> 2 <= |tokens| <= 3
    ensures r.sent.Some? ==> r.sent.value == (tokens[1], if |tokens| == 3 then tokens[2] else "")
    ensures r.sent.Some? ==> r.err == rmgr(r.sent.value.0, r.sent.value.1)
    ensures r.sent.None? ==> r.err.Some?
  {
    if |tokens| < 2 || |tokens| > 3 then
      DelOutcome(None, Some("bad delete reservation command: wanted 'reservation res-ID [cookie]' received " +
                            IntStr(|tokens| - 1) + " tokens"))
    else
      var cookie := if |tokens| < 3 then "" else tokens[2];
      DelOutcome(Some((tokens[1], cookie)), rmgr(tokens[1], cookie))
  }

  // ---- record bookkeeping --------------------------------------------------------------------

  /** A counted request: its tokens, the data used to authorise it and whether that is a
      token. */
  datatype Request = Request(tokens: seq<string>, auth: string, isToken: bool)

  /** Empty records, a first token shorter than two characters and comments are skipped. */
  predicate Skipped(toks: seq<string>)
  {
    |toks| < 1 || |toks[0]| < 2 || toks[0][0] == '#'
  }

  /** A record as a request: a leading "auth=" token (with something after the '=') is
      removed and supplies the token; otherwise the sender's address authorises. */
  function AsRequest(toks: seq<string>, sender: string, stripAuth: bool): (r: Request)
    requires !Skipped(toks)
    ensures r.isToken ==> r.tokens == toks[1..] && toks[0] == "auth=" + r.auth && r.auth != ""
    ensures !r.isToken ==> r.tokens == toks && r.auth == sender
  {
    if stripAuth && |toks[0]| > 5 && toks[0][..5] == "auth=" then
      assert toks[0] == toks[0][..5] + toks[0][5..];
      Request(toks[1..], toks[0][5..], true)
    else Request(toks, sender, false)
  }

  /** The requests among the (tokenised) records, in order. */
  function Requests(recs: seq<seq<string>>, sender: string, stripAuth: bool): (r: seq<Request>)
    ensures |r| <= |recs|
  {
    if |recs| == 0 then []
    else
      var init := Requests(recs[..|recs| - 1], sender, stripAuth);
      var last := recs[|recs| - 1];
      if Skipped(last) then init else init + [AsRequest(last, sender, stripAuth)]
  }

  /** The status reported for a request and for a whole body: WARN is a request that did
      nothing because there was nothing to do, as a pause while paused. */
  datatype Status = OK | WARN | ERROR

  /** What each request came to: `Panic` as soon as one fails hard, else each one's status. */
  function Outcomes(reqs: seq<Request>, outcome: Request -> Go<Status>): (r: Go<seq<Status>>)
    ensures r.Value? ==> |r.v| == |reqs|
  {
    if |reqs| == 0 then Value([])
    else match Outcomes(reqs[..|reqs| - 1], outcome)
      case Panic => Panic
      case Value(oks) =>
        match outcome(reqs[|reqs| - 1])
        case Panic => Panic
        case Value(ok) => Value(oks + [ok])
  }

  /** The number of requests whose status is ERROR. */
  function Failures(sts: seq<Status>): (n: nat)
    ensures n <= |sts|
    ensures n == 0 <==> forall i :: 0 <= i < |sts| ==> sts[i] != ERROR
  {
    if |sts| == 0 then 0
    else
      var n := Failures(sts[..|sts| - 1]);
      assert forall i :: 0 <= i < |sts| - 1 ==> sts[..|sts| - 1][i] == sts[i];
      if sts[|sts| - 1] != ERROR then n else n + 1
  }

  /** Overall status of a body and its counts. */
  datatype Summary = Summary(state: Status, count: nat, nerrors: nat)

  /** The loop of `parse_post`/`parse_delete`: requests are counted, each error counted, and
      the final state is ERROR when any request failed or none was found, else the last
      request's state, OK or WARN. */
  method ParseRecords(recs: seq<seq<string>>, sender: string, stripAuth: bool, outcome: Request -> Go<Status>)
    returns (r: Go<Summary>)
    ensures Outcomes(Requests(recs, sender, stripAuth), outcome).Panic? <==> r.Panic?
    ensures r.Value? ==> r.v.count == |Requests(recs, sender, stripAuth)|
    ensures r.Value? ==> r.v.nerrors == Failures(Outcomes(Requests(recs, sender, stripAuth), outcome).v)
    ensures r.Value? ==> (r.v.state == ERROR <==> r.v.count == 0 || r.v.nerrors > 0)
    ensures r.Value? && r.v.count > 0 && r.v.nerrors == 0 ==>
      var sts := Outcomes(Requests(recs, sender, stripAuth), outcome).v;
      r.v.state == sts[|sts| - 1]
  {
    var state := ERROR;
    var count: nat := 0;
    var nerrors: nat := 0;
    ghost var sts: seq<Status> := [];
    for i := 0 to |recs|
      invariant ReadUpto(recs, i, sender, stripAuth, outcome, sts)
      invariant count == |sts| && nerrors == Failures(sts)
      invariant |sts| > 0 ==> state == sts[|sts| - 1]
    {
      ReadNext(recs, i, sender, stripAuth, outcome, sts);
      if !Skipped(recs[i]) {
        var o := outcome(AsRequest(recs[i], sender, stripAuth));
        if o.Panic? {
          OutcomesPanic(recs, i, sender, stripAuth, outcome);
          return Panic;
        }
        state, count, nerrors := Tally(o.v, count, nerrors);
        FailuresSnoc(sts, o.v);
        sts := sts + [o.v];
      }
    }
    ReadAll(recs, sender, stripAuth, outcome, sts);
    var sum := Conclude(state, count, nerrors);
    return Value(sum);
  }

  /** The body's state: the last request's, overridden by ERROR when any request failed or
      none was found. */
  method Conclude(state: Status, count: nat, nerrors: nat) returns (sum: Summary)
    ensures sum.count == count && sum.nerrors == nerrors
    ensures nerrors > 0 || count == 0 ==> sum.state == ERROR
    ensures nerrors == 0 && count > 0 ==> sum.state == state
  {
    var st := state;
    if nerrors > 0 {
      st := ERROR;
    }
    if count <= 0 {
      st := ERROR;
    }
    return Summary(st, count, nerrors);
  }

  /** Counts one request, keeping its state, and counts an error when that state is ERROR. */
  method Tally(st: Status, count: nat, nerrors: nat) returns (state: Status, count': nat, nerrors': nat)
    ensures count' == count + 1
    ensures state == st
    ensures nerrors' == nerrors + (if st == ERROR then 1 else 0)
  {
    count' := count + 1;
    state := st;
    nerrors' := nerrors;
    if state == ERROR {
      nerrors' := nerrors + 1;
    }
  }

  /** The first `i` records came to the statuses `sts`. */
  ghost predicate ReadUpto(recs: seq<seq<string>>, i: nat, sender: string, stripAuth: bool,
                           outcome: Request -> Go<Status>, sts: seq<Status>)
  {
    i <= |recs| && Outcomes(Requests(recs[..i], sender, stripAuth), outcome) == Value(sts)
  }

  /** Reading one more record: a skipped one adds nothing, any other adds its status. */
  lemma ReadNext(recs: seq<seq<string>>, i: nat, sender: string, stripAuth: bool,
                 outcome: Request -> Go<Status>, sts: seq<Status>)
    requires i < |recs| && ReadUpto(recs, i, sender, stripAuth, outcome, sts)
    ensures Skipped(recs[i]) ==> ReadUpto(recs, i + 1, sender, stripAuth, outcome, sts)
    ensures !Skipped(recs[i]) && outcome(AsRequest(recs[i], sender, stripAuth)).Value? ==>
      ReadUpto(recs, i + 1, sender, stripAuth, outcome, sts + [outcome(AsRequest(recs[i], sender, stripAuth)).v])
  {
    RequestsSnoc(recs, i, sender, stripAuth);
    if !Skipped(recs[i]) {
      OutcomesSnoc(Requests(recs[..i], sender, stripAuth), AsRequest(recs[i], sender, stripAuth), outcome);
    }
  }

  /** Having read every record, the statuses are those of the whole body. */
  lemma ReadAll(recs: seq<seq<string>>, sender: string, stripAuth: bool, outcome: Request -> Go<Status>, sts: seq<Status>)
    requires ReadUpto(recs, |recs|, sender, stripAuth, outcome, sts)
    ensures Outcomes(Requests(recs, sender, stripAuth), outcome) == Value(sts)
  {
    assert recs[..|recs|] == recs;
  }

  lemma RequestsSnoc(recs: seq<seq<string>>, i: nat, sender: string, stripAuth: bool)
    requires i < |recs|
    ensures Skipped(recs[i]) ==> Requests(recs[..i + 1], sender, stripAuth) == Requests(recs[..i], sender, stripAuth)
    ensures !Skipped(recs[i]) ==>
      Requests(recs[..i + 1], sender, stripAuth) == Requests(recs[..i], sender, stripAuth) + [AsRequest(recs[i], sender, stripAuth)]
  {
    assert recs[..i + 1][..i] == recs[..i];
  }

  lemma OutcomesSnoc(reqs: seq<Request>, r: Request, outcome: Request -> Go<Status>)
    ensures Outcomes(reqs, outcome).Value? && outcome(r).Value? ==>
      Outcomes(reqs + [r], outcome) == Value(Outcomes(reqs, outcome).v + [outcome(r).v])
  {
    assert (reqs + [r])[..|reqs|] == reqs;
  }

  lemma FailuresSnoc(sts: seq<Status>, st: Status)
    ensures Failures(sts + [st]) == Failures(sts) + (if st == ERROR then 1 else 0)
  {
    assert (sts + [st])[..|sts|] == sts;
  }

  /** A request that fails hard ends the whole body. */
  lemma {:induction false} OutcomesPanic(recs: seq<seq<string>>, i: nat, sender: string, stripAuth: bool,
                                         outcome: Request -> Go<Status>)
    requires i < |recs| && !Skipped(recs[i]) && outcome(AsRequest(recs[i], sender, stripAuth)).Panic?
    ensures Outcomes(Requests(recs, sender, stripAuth), outcome).Panic?
    decreases |recs| - i
  {
    if i < |recs| - 1 {
      OutcomesPanic(recs[..|recs| - 1], i, sender, stripAuth, outcome);
    }
  }

  /** `parse_post`'s verdict on one request: a request with no command left after the
      "auth=" token fails hard (index out of range); while requests are not accepted only
      "ping" and "verbose" are handled; the handler gives the state of the rest. */
  function PostOutcome(accept: bool, handle: Request -> Status): Request -> Go<Status>
  {
    (r: Request) => if |r.tokens| == 0 then Panic
                    else if accept || r.tokens[0] == "ping" || r.tokens[0] == "verbose" then Value(handle(r))
                    else Value(ERROR)
  }

  /** `parse_delete`'s verdict on one request: only "reservation" is known, and it succeeds
      when the reservation manager reports no error. */
  function DeleteOutcome(rmgr: (string, string) -> Option<string>): Request -> Go<Status>
  {
    (r: Request) => Value(if |r.tokens| > 0 && r.tokens[0] == "reservation" && DeleteReservation(r.tokens, rmgr).err.None?
                          then OK else ERROR)
  }

  /** A body of DELETE requests never fails hard: it always comes to a summary. */
  lemma DeleteNeverPanics(recs: seq<seq<string>>, sender: string, rmgr: (string, string) -> Option<string>)
    ensures Outcomes(Requests(recs, sender, false), DeleteOutcome(rmgr)).Value?
  {
    OutcomesTotal(Requests(recs, sender, false), DeleteOutcome(rmgr));
  }

  /** A POST record holding only an "auth=" token leaves no command and fails hard. */
  lemma AuthOnlyRecordPanics(tok: string, sender: string, accept: bool, handle: Request -> Status)
    requires |tok| > 0
    ensures Outcomes(Requests([["auth=" + tok]], sender, true), PostOutcome(accept, handle)).Panic?
  {
    var recs := [["auth=" + tok]];
    assert ("auth=" + tok)[..5] == "auth=";
    assert recs[..0] == [];
    assert Requests(recs, sender, true) == [Request([], tok, true)] by {
      assert ("auth=" + tok)[5..] == tok;
    }
  }

  lemma {:induction false} OutcomesTotal(reqs: seq<Request>, outcome: Request -> Go<Status>)
    requires forall r :: outcome(r).Value?
    ensures Outcomes(reqs, outcome).Value? && |Outcomes(reqs, outcome).v| == |reqs|
  {
    if |reqs| > 0 {
      OutcomesTotal(reqs[..|reqs| - 1], outcome);
    }
  }

  // ---- traffic classes -----------------------------------------------------------------------

  /** The traffic classes and their DSCP values. */
  const TCLASS2DSCP: map<string, int> := map["voice" := 46, "control" := 26, "data" := 18]

  /** The class of a reservation as (DSCP, keep on exit). Voice (46) by default, also for the
      old default "0"; "global_<class>" keeps the value as packets leave; an unknown class is
      an error. */
  function ClassDscp(tok: Option<string>, classes: map<string, int>): (r: Result<(int, bool)>)
    ensures tok.None? || tok == Some("0") ==> r == Ok((if "voice" in classes then classes["voice"] else 0, false))
    ensures tok.Some? && tok.value != "0" ==>
      var g := HasPrefix(tok.value, "global_");
      var name := if g then tok.value[7..] else tok.value;
      (r.Ok? <==> name in classes && classes[name] > 0) && (r.Ok? ==> r.value == (classes[name], g))
  {
    var dflt := if "voice" in classes then classes["voice"] else 0;
    if tok.None? || tok.value == "0" then Ok((dflt, false))
    else
      var g := HasPrefix(tok.value, "global_");
      var name := if g then tok.value[7..] else tok.value;
      var d := if name in classes then classes[name] else 0;
      if d <= 0 then Err("traffic classifcation string is not valid: " + tok.value)
      else Ok((d, g))
  }

  /** With the built-in classes: the default is voice 46, "global_voice" is 46 kept on exit,
      and an unknown name is refused. */
  lemma ClassDscpDefaults(other: string)
    requires other !in TCLASS2DSCP && other != "0"
    ensures ClassDscp(None, TCLASS2DSCP) == Ok((46, false))
    ensures ClassDscp(Some("global_voice"), TCLASS2DSCP) == Ok((46, true))
    ensures ClassDscp(Some("data"), TCLASS2DSCP) == Ok((18, false))
    ensures !HasPrefix(other, "global_") ==> ClassDscp(Some(other), TCLASS2DSCP).Err?
  {
    assert "global_voice"[..7] == "global_";
    assert "global_voice"[7..] == "voice";
    assert !HasPrefix("data", "global_");
  }
}
