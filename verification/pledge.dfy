/** A bandwidth reservation (gizmos/pledge.go). The struct is a class whose setters update it
    in place; the nil-safe accessors take a possibly-null pledge. Time is the parameter `now`. */
module Pledges {
  import opened Wrappers

  /** Reservation type returned by `Get_ptype` in the version res_mgr.go is written against. */
  datatype Kind = Bandwidth | Steering

  /** A decoded JSON value and object, as `encoding/json` delivers them. */
  datatype JVal = JStr(s: string) | JNum(n: int)
  type JObj = map<string, JVal>

  /** The exported mirror struct `Json_pledge` that checkpoint records decode into. Its
      string fields are pointers, None standing for nil. */
  datatype JsonPledge = JsonPledge(host1: Option<string>, host2: Option<string>, commence: int, expiry: int,
                                   bandwin: int, bandwout: int, dscp: int, id: Option<string>,
                                   qid: Option<string>, usrkey: Option<string>)

  /** The pointers `To_str` dereferences are all set. */
  predicate Printable(jp: JsonPledge)
  {
    jp.host1.Some? && jp.host2.Some? && jp.id.Some? && jp.qid.Some?
  }

  /** The pointers `To_chkpt` dereferences are all set. */
  predicate Complete(jp: JsonPledge)
  {
    Printable(jp) && jp.usrkey.Some?
  }

  class Pledge {
    var host1: string
    var host2: string
    var commence: int
    var expiry: int
    var bandwIn: int
    var bandwOut: int
    var dscp: int
    var id: string
    var qid: Option<string>
    var usrkey: string
    var paths: seq<nat>
    var pushed: bool
    var paused: bool
    var kind: Kind

    constructor (host1: string, host2: string, commence: int, expiry: int, bandwIn: int,
                 bandwOut: int, id: string, usrkey: string, dscp: int)
      ensures this.host1 == host1 && this.host2 == host2 && this.commence == commence
      ensures this.expiry == expiry && this.bandwIn == bandwIn && this.bandwOut == bandwOut
      ensures this.id == id && this.usrkey == usrkey && this.dscp == dscp
      ensures qid.None? && paths == [] && !pushed && !paused && kind == Bandwidth
    {
      this.host1, this.host2, this.commence, this.expiry := host1, host2, commence, expiry;
      this.bandwIn, this.bandwOut, this.id, this.usrkey, this.dscp := bandwIn, bandwOut, id, usrkey, dscp;
      qid, paths, pushed, paused, kind := None, [], false, false, Bandwidth;
    }

    /** `Set_qid`. */
    method SetQid(q: string)
      modifies this`qid
      ensures qid == Some(q)
    {
      qid := Some(q);
    }

    /** `Set_path_list`: the paths themselves are handles here. */
    method SetPathList(pl: seq<nat>)
      modifies this`paths
      ensures paths == pl
    {
      paths := pl;
    }

    /** `Set_expiry` (used by res_mgr.go to retire a reservation). */
    method SetExpiry(e: int)
      modifies this`expiry
      ensures expiry == e
    {
      expiry := e;
    }

    /** `Pause(reset)`: mark paused and, when asked, clear the pushed flag so the
        reservation is pushed again. */
    method Pause(reset: bool)
      modifies this`paused, this`pushed
      ensures paused && pushed == (old(pushed) && !reset)
    {
      paused := true;
      if reset { pushed := false; }
    }

    /** `Resume(reset)`: the opposite of `Pause`. */
    method Resume(reset: bool)
      modifies this`paused, this`pushed
      ensures !paused && pushed == (old(pushed) && !reset)
    {
      paused := false;
      if reset { pushed := false; }
    }

    /** `From_json`: decode a checkpoint record; on a decoding error nothing changes. A
        record with every key holds exactly what was decoded; a missing host, id or user key
        is held as "". */
    method FromJson(obj: JObj) returns (err: Option<string>)
      modifies this`host1, this`host2, this`commence, this`expiry, this`bandwIn, this`bandwOut,
               this`dscp, this`id, this`qid, this`usrkey
      ensures err.None? <==> Unmarshal(obj).Ok?
      ensures err.Some? ==> unchanged(this)
      ensures err.None? ==> Saved(this) == Held(Unmarshal(obj).value)
      ensures err.None? && Complete(Unmarshal(obj).value) ==> Saved(this) == Unmarshal(obj).value
    {
      match Unmarshal(obj)
      case Err(m) => return Some(m);
      case Ok(jp) =>
        Assign(jp);
        return None;
    }

    /** The field copies `From_json` makes once the record is decoded. */
    method Assign(jp: JsonPledge)
      modifies this`host1, this`host2, this`commence, this`expiry, this`bandwIn, this`bandwOut,
               this`dscp, this`id, this`qid, this`usrkey
      ensures Saved(this) == Held(jp)
    {
      host1, host2, commence, expiry := Or(jp.host1), Or(jp.host2), jp.commence, jp.expiry;
      id, dscp, usrkey, qid := Or(jp.id), jp.dscp, Or(jp.usrkey), jp.qid;
      bandwOut, bandwIn := jp.bandwout, jp.bandwin;
    }
  }

  /** A set pointer's string, or "" for nil. */
  function Or(o: Option<string>): string
  {
    if o.Some? then o.value else ""
  }

  /** The fields a checkpoint record is about, read off a pledge. */
  function Saved(p: Pledge): (jp: JsonPledge)
    reads p
    ensures jp.qid.Some? ==> Complete(jp)
  {
    JsonPledge(Some(p.host1), Some(p.host2), p.commence, p.expiry, p.bandwIn, p.bandwOut, p.dscp,
               Some(p.id), p.qid, Some(p.usrkey))
  }

  /** What a pledge holds of a decoded record: the record itself when it is complete, with a
      nil host, id or user key held as "". */
  function Held(jp: JsonPledge): (h: JsonPledge)
    ensures h.host1.Some? && h.host2.Some? && h.id.Some? && h.usrkey.Some? && h.qid == jp.qid
    ensures Complete(jp) ==> h == jp
    ensures h.(host1 := jp.host1, host2 := jp.host2, id := jp.id, usrkey := jp.usrkey) == jp
  {
    jp.(host1 := Some(Or(jp.host1)), host2 := Some(Or(jp.host2)), id := Some(Or(jp.id)), usrkey := Some(Or(jp.usrkey)))
  }

  /** `Mk_pledge`: an expiry not after `now` is refused first, then a host2 of "" or "any";
      otherwise commence is moved up to `now` and an empty user key is kept as "". */
  method MkPledge(host1: string, host2: string, commence: int, expiry: int, bandwIn: int,
                  bandwOut: int, id: string, usrkey: string, dscp: int, now: int)
    returns (p: Pledge?, err: Option<string>)
    ensures p == null <==> err.Some?
    ensures err.Some? <==> expiry <= now || host2 == "" || host2 == "any"
    ensures p != null ==>
              && fresh(p) && p.commence == (if commence < now then now else commence)
              && p.expiry == expiry && p.host1 == host1 && p.host2 == host2 && p.usrkey == usrkey
              && p.id == id && p.dscp == dscp && p.bandwIn == bandwIn && p.bandwOut == bandwOut && !p.pushed
    ensures p != null ==> !IsExpired(p, now) && !IsActive(p, now)
  {
    if expiry <= now {
      return null, Some("bad expiry submitted, already expired");
    }
    var c := commence;
    if c < now {
      c := now;
    }
    if host2 == "" || host2 == "any" {
      return null, Some("bad host2 name submitted");
    }
    p := new Pledge(host1, host2, c, expiry, bandwIn, bandwOut, id, usrkey, dscp);
    err := None;
  }

  /** `Set_pushed` and `Reset_pushed`: only the pushed flag changes; nil is left alone. */
  method SetPushed(p: Pledge?)
    modifies (if p != null then {p} else {})`pushed
    ensures p != null ==> p.pushed
  {
    if p != null { p.pushed := true; }
  }

  method ResetPushed(p: Pledge?)
    modifies (if p != null then {p} else {})`pushed
    ensures p != null ==> !p.pushed
  {
    if p != null { p.pushed := false; }
  }

  function IsPushed(p: Pledge?): (r: bool)
    reads p
    ensures r ==> p != null
  {
    p != null && p.pushed
  }

  // ---- the time windows ------------------------------------------------------------------

  /** `Is_expired`: now at or past the expiry; a nil pledge counts as expired. */
  function IsExpired(p: Pledge?, now: int): (r: bool)
    reads p
    ensures p != null && r ==> !IsActive(p, now)
  {
    p == null || now >= p.expiry
  }

  /** `Is_pending`: not yet commenced. */
  function IsPending(p: Pledge?, now: int): (r: bool)
    reads p
    ensures r ==> p != null && !IsActive(p, now) && !(p.commence <= p.expiry && IsExpired(p, now))
  {
    p != null && now < p.commence
  }

  /** `Is_active`: strictly after commence and strictly before expiry, so neither holds at
      the commence second itself. */
  function IsActive(p: Pledge?, now: int): (r: bool)
    reads p
    ensures r ==> p != null && p.commence < now < p.expiry
    ensures p != null && now == p.commence ==> !r
  {
    p != null && p.commence < now && p.expiry > now
  }

  /** `Is_active_soon(window)`: commence lies in [now, now + window]. */
  function IsActiveSoon(p: Pledge?, now: int, window: int): (r: bool)
    reads p
    ensures r ==> p != null && !IsActive(p, now) && (window >= 0 ==> p.commence - now <= window)
  {
    p != null && p.commence >= now && p.commence <= now + window
  }

  /** `Concluded_recently(window)`: expiry lies in [now - window, now). */
  function ConcludedRecently(p: Pledge?, now: int, window: int): (r: bool)
    reads p
    ensures r ==> p != null && IsExpired(p, now) && now - p.expiry <= window
  {
    p != null && p.expiry < now && p.expiry >= now - window
  }

  /** `Commenced_recently(window)`: commence lies in [now - window, now] and not yet expired. */
  function CommencedRecently(p: Pledge?, now: int, window: int): (r: bool)
    reads p
    ensures r ==> !IsExpired(p, now) && !IsPending(p, now)
  {
    p != null && p.commence >= now - window && p.commence <= now && p.expiry > now
  }

  /** `Is_extinct(window)` (res_mgr.go's purge test): expired more than `window` seconds ago. */
  function IsExtinct(p: Pledge, now: int, window: int): (r: bool)
    reads p
    ensures r && window >= 0 ==> IsExpired(p, now)
  {
    now - p.expiry > window
  }

  /** `Is_valid_cookie`: exact equality with the stored key. */
  function IsValidCookie(p: Pledge, c: string): (r: bool)
    reads p
  {
    c == p.usrkey
  }

  function GetBandwIn(p: Pledge?): int reads p { if p == null then 0 else p.bandwIn }
  function GetBandwOut(p: Pledge?): int reads p { if p == null then 0 else p.bandwOut }

  /** `Get_bandw`: the total of both directions; nil has none. */
  function GetBandw(p: Pledge?): (r: int)
    reads p
    ensures r == GetBandwIn(p) + GetBandwOut(p)
  {
    if p == null then 0 else p.bandwIn + p.bandwOut
  }

  /** `To_json` and `To_str` disagree on the state name only at the expiry second. */
  function JsonState(p: Pledge, now: int): string
    reads p
  {
    if now >= p.expiry then "EXPIRED" else if now < p.commence then "PENDING" else "ACTIVE"
  }

  function StrState(p: Pledge, now: int): string
    reads p
  {
    if now > p.expiry then "EXPIRED" else if now < p.commence then "PENDING" else "ACTIVE"
  }

  lemma StateNamesDiffer(p: Pledge, now: int)
    ensures JsonState(p, now) != StrState(p, now) <==> now == p.expiry
    ensures now != p.expiry ==> (JsonState(p, now) == "EXPIRED" <==> IsExpired(p, now))
  {
  }

  // ---- checkpoint records ----------------------------------------------------------------

  /** What `To_chkpt` produces: the text "expired", a record, or a nil-pointer panic when the
      queue id was never set. */
  datatype Chkpt = Expired | Record(obj: JObj) | NilQid

  /** The checkpoint record of a pledge's saved fields (the dscp is not written). */
  function RecordOf(jp: JsonPledge): (r: JObj)
    requires Complete(jp)
    ensures "dscp" !in r && r.Keys == {"host1", "host2", "commence", "expiry", "bandwin", "bandwout", "id", "qid", "usrkey"}
  {
    map["host1" := JStr(jp.host1.value), "host2" := JStr(jp.host2.value), "commence" := JNum(jp.commence),
        "expiry" := JNum(jp.expiry), "bandwin" := JNum(jp.bandwin), "bandwout" := JNum(jp.bandwout),
        "id" := JStr(jp.id.value), "qid" := JStr(jp.qid.value), "usrkey" := JStr(jp.usrkey.value)]
  }

  /** `To_chkpt`: "expired" exactly when `Is_expired`; otherwise the record of the saved
      fields. */
  function ToChkpt(p: Pledge?, now: int): (r: Chkpt)
    reads p
    ensures r.Expired? <==> IsExpired(p, now)
    ensures r.NilQid? <==> p != null && !IsExpired(p, now) && p.qid.None?
    ensures r.Record? ==> p != null && r.obj == RecordOf(Saved(p))
  {
    if IsExpired(p, now) then Expired
    else if p.qid.None? then NilQid
    else Record(RecordOf(Saved(p)))
  }

  /** The keys `Json_pledge` decodes as strings and as numbers. */
  const STR_KEYS: set<string> := {"host1", "host2", "id", "qid", "usrkey"}
  const NUM_KEYS: set<string> := {"commence", "expiry", "bandwin", "bandwout", "dscp"}

  /** Every known key holds a value of its field's type; other keys are ignored. */
  predicate WellTyped(obj: JObj)
  {
    forall k :: k in obj ==> (k in STR_KEYS ==> obj[k].JStr?) && (k in NUM_KEYS ==> obj[k].JNum?)
  }

  /** A string pointer field; an absent key leaves the pointer nil. */
  function StrField(obj: JObj, k: string): (r: Option<string>)
    ensures r.Some? <==> k in obj && obj[k].JStr?
  {
    if k in obj && obj[k].JStr? then Some(obj[k].s) else None
  }

  /** A number field; an absent key leaves the zero value 0. */
  function NumField(obj: JObj, k: string): int
  {
    if k in obj && obj[k].JNum? then obj[k].n else 0
  }

  /** `json.Unmarshal` into a fresh `Json_pledge`: a value of the wrong type is an error;
      otherwise an absent number key leaves 0 and an absent string key leaves its pointer
      nil. */
  function Unmarshal(obj: JObj): (r: Result<JsonPledge>)
    ensures r.Ok? <==> WellTyped(obj)
    ensures r.Ok? ==> (Complete(r.value) <==> STR_KEYS <= obj.Keys)
  {
    if !WellTyped(obj) then Err("json: cannot unmarshal")
    else
      Ok(JsonPledge(StrField(obj, "host1"), StrField(obj, "host2"), NumField(obj, "commence"),
                    NumField(obj, "expiry"), NumField(obj, "bandwin"), NumField(obj, "bandwout"),
                    NumField(obj, "dscp"), StrField(obj, "id"), StrField(obj, "qid"), StrField(obj, "usrkey")))
  }

  /** Checkpoint round trip: decoding a record restores every saved field; the dscp, which
      is not written, comes back as 0. */
  lemma ChkptRoundTrip(jp: JsonPledge)
    requires Complete(jp)
    ensures Unmarshal(RecordOf(jp)) == Ok(jp.(dscp := 0))
  {
  }
}
