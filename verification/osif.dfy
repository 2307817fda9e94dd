/** Project and token translation of the OpenStack interface manager (managers/osif.go):
    checking "token/project/host" strings, project membership, role checks and the
    name-to-id request. OpenStack itself is an oracle: `token2project` and `Crack_ptoken`
    are function parameters. */
module Osif {
  import opened Wrappers
  import opened Strs
  import opened Nums

  /** `strings.SplitN(s, "/", 3)`: at most three pieces, the last one keeping any further
      separators. */
  function SplitN3(s: string): (r: seq<string>)
    ensures 1 <= |r| <= 3
    ensures |r| == 1 <==> '/' !in s
    ensures |r| == 1 ==> r[0] == s
    ensures |r| == 2 ==> '/' !in r[0] && '/' !in r[1] && r[0] + ['/'] + r[1] == s
    ensures |r| == 3 ==> '/' !in r[0] && '/' !in r[1] && r[0] + ['/'] + r[1] + ['/'] + r[2] == s
  {
    var t := SplitN2(s, '/');
    if |t| == 1 then t
    else
      var u := SplitN2(t[1], '/');
      if |u| == 1 then [t[0], u[0]]
      else
        Rejoin(t[0], u[0], u[1]);
        [t[0], u[0], u[1]]
  }

  lemma Rejoin(a: string, b: string, c: string)
    ensures a + ['/'] + b + ['/'] + c == a + ['/'] + (b + ['/'] + c)
  {
  }

  /** What `token2project` learns from OpenStack about a token: its project, or nothing
      (with the last error seen, which may be none). */
  datatype ProjInfo = Found(name: string, id: string) | NotFound(diag: Option<string>)

  /** A Go pair (string or nil, error or nil). */
  datatype Reply = Reply(val: Option<string>, err: Option<string>)

  const TOKEN_REQUIRED: string := "token prefixed host names are required (token/tenant/hostname): token not found"

  /** A project name translated to its id when the map knows it; anything else is kept. */
  function ProjId(pname2id: map<string, string>, p: string): string
  {
    if p in pname2id then pname2id[p] else p
  }

  /** `validate_token(raw, pname2id, tok_req)`: checks a "[token/]project/host" string and
      gives "id/host". One piece is a bare host; two are project/host; three are
      token/project/host, where "!" as the token (or a token starting with '!') asks for the
      unvalidated "!id/host", and an empty project is taken from the token. */
  function ValidateToken(raw: string, pname2id: map<string, string>, token2project: string -> ProjInfo,
                         tokReq: bool): (r: Reply)
    ensures r.val.Some? ==> r.err.None?
    ensures |SplitN3(raw)| < 3 ==> (r.val.Some? <==> !tokReq)
  {
    var toks := SplitN3(raw);
    if |toks| == 1 then
      if tokReq then Reply(None, Some(TOKEN_REQUIRED)) else Reply(Some(raw), None)
    else if |toks| == 2 then
      if tokReq then Reply(None, Some(TOKEN_REQUIRED))
      else if toks[0] in pname2id then Reply(Some(pname2id[toks[0]] + "/" + toks[1]), None)
      else Reply(Some(raw), None)
    else if toks[0] == "" then
      Reply(None, Some("invalid host name; expected {!|tok}/[project]/hostname, got: " + raw))
    else if toks[1] == "" && toks[0] != "!" then
      match token2project(toks[0])
      case NotFound(d) => Reply(None, d)
      case Found(_, id) => Reply(Some(id + "/" + toks[2]), None)
    else
      var id := if toks[1] == "" then "" else ProjId(pname2id, toks[1]);
      if !tokReq then Reply(Some(id + "/" + toks[2]), None)
      else if toks[0][0] == '!' then Reply(Some("!" + id + "/" + toks[2]), None)
      else match token2project(toks[0])
        case NotFound(d) =>
          Reply(None, Some("unable to determine project from token: " + (if d.Some? then d.value else "no diagnostic")))
        case Found(pname, pid) =>
          if pname != toks[1] && pid != toks[1] then Reply(None, Some("invalid token/tenant pair"))
          else Reply(Some(id + "/" + toks[2]), None)
  }

  /** The token of a three-piece string vouches for its project: OpenStack knows the token
      and its project is the one named (by name or by id), or no project was named. */
  ghost predicate Vouched(toks: seq<string>, token2project: string -> ProjInfo)
    requires |toks| == 3
  {
    token2project(toks[0]).Found? &&
    (toks[1] == "" || token2project(toks[0]).name == toks[1] || token2project(toks[0]).id == toks[1])
  }

  /** When a token is required, a string is accepted only with three pieces, and then either
      the token vouches for the project, or the token starts with '!' and the answer is
      marked unvalidated with a leading '!'. */
  lemma ValidateTokenAuthorised(raw: string, pname2id: map<string, string>, token2project: string -> ProjInfo)
    ensures var r := ValidateToken(raw, pname2id, token2project, true); var toks := SplitN3(raw);
      r.val.Some? ==>
        (|toks| == 3 && toks[0] != "" &&
         (Vouched(toks, token2project) || (toks[0][0] == '!' && r.val.value == "!" + ProjId(pname2id, toks[1]) + "/" + toks[2]) ||
          (toks[0] == "!" && toks[1] == "" && r.val.value == "!/" + toks[2])))
  {
    var r := ValidateToken(raw, pname2id, token2project, true);
    var toks := SplitN3(raw);
    if r.val.Some? {
      assert |toks| == 3 && toks[0] != "";
      ValidateTokenAccepts(raw, pname2id, token2project);
      if toks[1] == "" && toks[0] != "!" {
        assert Vouched(toks, token2project);
      } else if toks[0][0] == '!' {
        if toks[1] == "" {
          assert r.val.value == "!/" + toks[2] by { assert "!" + "" + "/" + toks[2] == "!/" + toks[2]; }
        }
      } else {
        assert Vouched(toks, token2project);
      }
    }
  }

  /** When a token is required, a "token/project/host" string with a token is accepted as
      follows: with an empty project and a real token, exactly when OpenStack knows the token,
      as the token's project id and the host; with a token starting with '!', always, as "!",
      the project's id (nothing for an empty project) and the host; otherwise exactly when the
      token vouches for the project, as the project's id and the host. */
  lemma ValidateTokenAccepts(raw: string, pname2id: map<string, string>, token2project: string -> ProjInfo)
    ensures var r := ValidateToken(raw, pname2id, token2project, true); var toks := SplitN3(raw);
      |toks| == 3 && toks[0] != "" ==>
        && (toks[1] == "" && toks[0] != "!" ==>
              (r.val.Some? <==> token2project(toks[0]).Found?) &&
              (r.val.Some? ==> r.val.value == token2project(toks[0]).id + "/" + toks[2]))
        && ((toks[1] != "" || toks[0] == "!") && toks[0][0] == '!' ==>
              r.val == Some("!" + (if toks[1] == "" then "" else ProjId(pname2id, toks[1])) + "/" + toks[2]))
        && (toks[1] != "" && toks[0][0] != '!' ==>
              (r.val.Some? <==> Vouched(toks, token2project)) &&
              (r.val.Some? ==> r.val.value == ProjId(pname2id, toks[1]) + "/" + toks[2]))
  {
  }

  /** Without a token, one piece comes back unchanged, two pieces translate the project when
      it is known, and three pieces give "id/host". */
  lemma ValidateTokenTranslates(raw: string, pname2id: map<string, string>, token2project: string -> ProjInfo)
    ensures var r := ValidateToken(raw, pname2id, token2project, false); var toks := SplitN3(raw);
      && (|toks| == 1 ==> r == Reply(Some(raw), None))
      && (|toks| == 2 ==> r == Reply(Some(ProjId(pname2id, toks[0]) + "/" + toks[1]), None))
      && (|toks| == 3 && toks[0] != "" && toks[1] != "" ==> r == Reply(Some(ProjId(pname2id, toks[1]) + "/" + toks[2]), None))
  {
    var toks := SplitN3(raw);
    if |toks| == 2 && toks[0] !in pname2id {
      assert raw == toks[0] + ['/'] + toks[1];
    }
  }

  /** A token that OpenStack does not know, with an empty project and no diagnostic, gives
      neither a string nor an error. */
  lemma SilentRejection(tok: string, host: string, token2project: string -> ProjInfo, tokReq: bool)
    requires tok != "" && tok != "!" && '/' !in tok
    requires token2project(tok) == NotFound(None)
    ensures ValidateToken(tok + "//" + host, map[], token2project, tokReq) == Reply(None, None)
  {
    var raw := tok + "//" + host;
    assert raw == tok + ['/'] + ("/" + host);
    SplitN2Of(tok, "/" + host, '/');
    assert "/" + host == [] + ['/'] + host;
    SplitN2Of("", host, '/');
    assert SplitN3(raw) == [tok, "", host];
  }

  /** `have_project(raw)`: the second '/'-piece is a known project name or id. */
  function HaveProject(raw: string, pname2id: map<string, string>, id2pname: map<string, string>): (ok: bool)
    ensures ok <==> |Split(raw, '/')| >= 2 && (Split(raw, '/')[1] in pname2id || Split(raw, '/')[1] in id2pname)
  {
    var toks := Split(raw, '/');
    if |toks| < 2 then false
    else toks[1] in pname2id || toks[1] in id2pname
  }

  /** What `Crack_ptoken` learns about a token for a project. */
  datatype Creds = Creds(user: string, tenantId: string, roles: set<string>)

  /** `has_any_role(token, roles)`: the token must be "token/project" with a non-empty
      project, OpenStack must accept it for that project, and one of the comma-separated
      roles must be among the user's roles; the answer is "user,tenant". */
  function HasAnyRole(token: string, roles: string, crack: (string, string) -> Result<Creds>): (r: Result<string>)
    ensures r.Ok? <==>
      (|Split(token, '/')| >= 2 && Split(token, '/')[1] != "" &&
       crack(Split(token, '/')[0], Split(token, '/')[1]).Ok? &&
       AnyRole(Split(roles, ','), crack(Split(token, '/')[0], Split(token, '/')[1]).value.roles))
    ensures r.Ok? ==> var c := crack(Split(token, '/')[0], Split(token, '/')[1]).value; r.value == c.user + "," + c.tenantId
    ensures |Split(token, '/')| >= 2 && Split(token, '/')[1] != "" && crack(Split(token, '/')[0], Split(token, '/')[1]).Err? ==>
      r == Err("has_any_role: token/project not valid for roles: " + roles + ": " +
               crack(Split(token, '/')[0], Split(token, '/')[1]).msg)
  {
    var rtoks := Split(roles, ',');
    if '/' in token then
      var toks := Split(token, '/');
      assert |toks| >= 2 by { SplitHasTwo(token, '/'); }
      if toks[1] == "" then Err("project portion of token/project was empty")
      else match crack(toks[0], toks[1])
        case Err(e) => Err("has_any_role: token/project not valid for roles: " + roles + ": " + e)
        case Ok(c) =>
          if AnyRole(rtoks, c.roles) then Ok(c.user + "," + c.tenantId)
          else Err("has_any_role: token/project not valid for roles: " + roles + ": none matched")
    else Err("has_any_role: rejected: data was NOT of the form token/project")
  }

  /** One of the wanted roles is held (`gizmos.Map_has_any`). */
  predicate AnyRole(wanted: seq<string>, held: set<string>)
  {
    exists i :: 0 <= i < |wanted| && wanted[i] in held
  }

  /** A string holding the separator splits into at least two pieces. */
  lemma {:induction false} SplitHasTwo(s: string, c: char)
    requires c in s
    ensures |Split(s, c)| >= 2
  {
    JoinSplit(s, c);
  }

  /** The REQ_HAS_ANY_ROLE request: "token role[,role...]"; fewer than two space-separated
      pieces is bad input. The boolean form answers whether a user came back. */
  function HasAnyRoleReq(data: string, crack: (string, string) -> Result<Creds>): (r: (bool, Option<string>))
    ensures r.0 <==> |Split(data, ' ')| > 1 && HasAnyRole(Split(data, ' ')[0], Split(data, ' ')[1], crack).Ok?
    ensures r.0 <==> r.1.None?
    ensures |Split(data, ' ')| <= 1 ==> r.1 == Some("has_any_role: bad input data")
    ensures |Split(data, ' ')| > 1 && HasAnyRole(Split(data, ' ')[0], Split(data, ' ')[1], crack).Err? ==>
      r.1 == Some(HasAnyRole(Split(data, ' ')[0], Split(data, ' ')[1], crack).msg)
  {
    var dtoks := Split(data, ' ');
    if |dtoks| > 1 then
      match HasAnyRole(dtoks[0], dtoks[1], crack)
      case Ok(up) => (up != "", None)
      case Err(e) => (false, Some(e))
    else (false, Some("has_any_role: bad input data"))
  }

  /** REQ_PNAME2ID: a project name gives its id, a known id gives itself, anything else nil. */
  function PName2Id(name: string, pname2id: map<string, string>, id2pname: map<string, string>): (r: Option<string>)
    ensures name in pname2id ==> r == Some(pname2id[name])
    ensures name !in pname2id ==> (r.Some? <==> name in id2pname) && (r.Some? ==> r.value == name)
  {
    if name in pname2id then Some(pname2id[name])
    else if name in id2pname then Some(name)
    else None
  }

  /** Translating twice changes nothing more when ids are known ids: an id maps to itself. */
  lemma PName2IdStable(name: string, pname2id: map<string, string>, id2pname: map<string, string>)
    requires forall n :: n in pname2id ==> pname2id[n] in id2pname && pname2id[n] !in pname2id
    ensures var r := PName2Id(name, pname2id, id2pname);
      r.Some? ==> PName2Id(r.value, pname2id, id2pname) == r
  {
  }

  /** The "refresh" setting: `clike.Atoi` of it, raised to 15 when smaller; 15 when unset. */
  function RefreshDelay(setting: Option<string>): (d: int)
    ensures d >= 15
    ensures setting.Some? && Atoll(setting.value) >= 15 ==> d == Atoll(setting.value)
  {
    match setting
    case None => 15
    case Some(p) => if Atoll(p) < 15 then 15 else Atoll(p)
  }
}
