/** The reservation inventory of the reservation manager (managers/res_mgr.go): a map from
    reservation id to pledge, with the cookie rules for fetching and deleting, the push
    selection and the checkpoint purge. Go's random map order is an arbitrary choice here. */
module ResMgr {
  import opened Wrappers
  import opened Pledges

  /** Seconds ahead within which an unpushed reservation is pushed. */
  const PUSH_WINDOW := 15
  /** Seconds an expired and pushed reservation is kept before the checkpoint purges it. */
  const EXTINCT_WINDOW := 120
  /** A deleted reservation expires this many seconds later. */
  const DELETE_GRACE := 15

  /** The user's key or the administrator's super cookie opens a reservation. */
  predicate Authorised(p: Pledge, cookie: string, superCookie: string)
    reads p
  {
    IsValidCookie(p, cookie) || cookie == superCookie
  }

  /** `push_reservations` pushes an unpushed pledge that is active or due within 15 s. */
  predicate Selected(p: Pledge, now: int)
    reads p
  {
    !p.pushed && (IsActive(p, now) || IsActiveSoon(p, now, PUSH_WINDOW))
  }

  /** The push succeeds (and marks the pledge) for a steering pledge, and for a bandwidth
      pledge when both host names translate to addresses. */
  predicate PushSucceeds(p: Pledge, resolves: string -> bool)
    reads p`kind, p`host1, p`host2
  {
    p.kind == Steering || (resolves(p.host1) && resolves(p.host2))
  }

  /** `write_chkpt` drops a pledge whose record is "expired", that died more than 120 s ago
      and whose final flow-mods were pushed. */
  predicate Purged(p: Pledge, now: int)
    reads p
  {
    IsExpired(p, now) && IsExtinct(p, now, EXTINCT_WINDOW) && IsPushed(p)
  }

  /** What reading a checkpoint file comes to: the reservations added (by id), the error that
      stopped the read, and whether a nil-pointer dereference ended the process. */
  datatype Load = Load(added: map<string, JsonPledge>, err: Option<string>, crashed: bool)

  /** A checkpoint line decoded into a pledge; `None` when it is not a JSON object or a value
      has the wrong type. */
  function Decode(line: Option<JObj>): (r: Option<JsonPledge>)
    ensures line.Some? && Unmarshal(line.value).Ok? <==> r.Some?
  {
    if line.None? then None
    else match Unmarshal(line.value)
      case Ok(jp) => Some(jp)
      case Err(_) => None
  }

  /** Every line of a checkpoint file, decoded. */
  function DecodeAll(lines: seq<Option<JObj>>): (r: seq<Option<JsonPledge>>)
    ensures |r| == |lines|
  {
    seq(|lines|, i requires 0 <= i < |lines| => Decode(lines[i]))
  }

  /** Decoding a file decodes its first line and then the rest. */
  lemma DecodeAllTail(lines: seq<Option<JObj>>)
    requires lines != []
    ensures DecodeAll(lines)[0] == Decode(lines[0]) && DecodeAll(lines)[1..] == DecodeAll(lines[1..])
  {
    var d := DecodeAll(lines);
    assert forall i :: 0 <= i < |d[1..]| ==> d[1..][i] == d[i + 1];
  }

  /** What one checkpoint line does: end the process, be skipped, stop the read because the
      id is already filed, or yield a pledge for the inventory. */
  datatype Step = Crash | Skip | Dup(id: string) | Accept(jp: JsonPledge)

  /** One line of `load_chkpt` over an inventory holding the ids `present`. A line that does
      not decode leaves an empty pledge, which is expired, and logging it dereferences its nil
      host. An expired pledge is logged by `To_str`, which dereferences both hosts, the id and
      the queue id. A live pledge is sent to the network as a reservation request, which the
      network always grants; `Add_res` then dereferences the id, refuses one already present,
      and otherwise files the pledge as decoded and logs it with `To_chkpt`, which
      dereferences every string field. */
  function StepOf(d: Option<JsonPledge>, now: int, present: set<string>): Step
    requires now >= 0
  {
    match d
    case None => Crash
    case Some(jp) =>
      if now >= jp.expiry then
        if Printable(jp) then Skip else Crash
      else if jp.id.None? then Crash
      else if jp.id.value in present then Dup(jp.id.value)
      else if Complete(jp) then Accept(jp)
      else Crash
  }

  /** A line is filed exactly when it decodes to a live, complete pledge with a new id, and
      then yields that pledge as decoded; it is skipped exactly when it decodes to an expired
      pledge whose hosts, id and queue id are all set; it stops the read exactly when a live
      pledge's id is present; every other line crashes. */
  lemma StepOfMeaning(d: Option<JsonPledge>, now: int, present: set<string>)
    requires now >= 0
    ensures StepOf(d, now, present).Accept? <==>
      d.Some? && now < d.value.expiry && Complete(d.value) && d.value.id.value !in present
    ensures StepOf(d, now, present).Accept? ==> StepOf(d, now, present).jp == d.value
    ensures StepOf(d, now, present).Skip? <==>
      d.Some? && now >= d.value.expiry && Printable(d.value)
    ensures StepOf(d, now, present).Dup? <==>
      d.Some? && now < d.value.expiry && d.value.id.Some? && d.value.id.value in present
    ensures StepOf(d, now, present).Crash? <==>
      || d.None?
      || (now >= d.value.expiry && !Printable(d.value))
      || (now < d.value.expiry && d.value.id.None?)
      || (now < d.value.expiry && d.value.id.Some? && d.value.id.value !in present && !Complete(d.value))
  {
  }

  /** A live record saved without a queue id ends the process, however complete the rest is:
      nothing on the reservation path gives it one, and `Add_res` logs it with `To_chkpt`,
      which dereferences the nil queue id. */
  lemma QidlessCrashes(jp: JsonPledge, now: int, present: set<string>)
    requires now >= 0 && now < jp.expiry && jp.qid.None? && jp.id.Some? && jp.id.value !in present
    ensures StepOf(Some(jp), now, present) == Crash
  {
  }

  /** A live, complete record with a new id is filed under its id exactly as it was saved,
      its saved queue id included. */
  lemma LineFiledAsSaved(jp: JsonPledge, now: int, present: set<string>)
    requires now >= 0 && now < jp.expiry && Complete(jp) && jp.id.value !in present
    ensures LoadSpec([Some(jp)], now, present) == Load(map[jp.id.value := jp], None, false)
    ensures LoadSpec([Some(jp)], now, present).added[jp.id.value].qid == jp.qid
  {
    var k := jp.id.value;
    assert StepOf(Some(jp), now, present) == Accept(jp);
    assert [Some(jp)][1..] == [];
    assert LoadSpec([Some(jp)], now, present) == LoadFrom([], now, present + {k}, map[][k := jp]);
    assert map[][k := jp] == map[k := jp];
  }

  /** `load_chkpt` from some line on, `added` holding what the earlier lines added and
      `present` the ids in the inventory: lines are read in order, and an accepted pledge
      whose id is already present stops the read with that error. */
  function LoadFrom(lines: seq<Option<JsonPledge>>, now: int, present: set<string>,
                    added: map<string, JsonPledge>): Load
    requires now >= 0
    decreases |lines|
  {
    if lines == [] then Load(added, None, false)
    else match StepOf(lines[0], now, present)
      case Crash => Load(added, None, true)
      case Skip => LoadFrom(lines[1..], now, present, added)
      case Dup(k) => Load(added, Some("reservation already exists: " + k), false)
      case Accept(q) => LoadFrom(lines[1..], now, present + {q.id.value}, added[q.id.value := q])
  }

  /** `load_chkpt` of a whole file into an inventory holding `present`. */
  function LoadSpec(lines: seq<Option<JsonPledge>>, now: int, present: set<string>): Load
    requires now >= 0
  {
    LoadFrom(lines, now, present, map[])
  }

  /** Loading adds only live, complete pledges, each under its own id and with its queue id
      set, and only ids not already present. */
  lemma {:induction false} LoadAddsLive(lines: seq<Option<JsonPledge>>, now: int,
                                        present: set<string>, added: map<string, JsonPledge>)
    requires now >= 0
    requires added.Keys <= present
    requires AllKept(added, now)
    ensures var r := LoadFrom(lines, now, present, added);
      (forall k :: k in added ==> k in r.added && r.added[k] == added[k]) &&
      (forall k :: k in r.added && k !in added ==> k !in present) &&
      AllKept(r.added, now)
    decreases |lines|
  {
    if lines != [] {
      match StepOf(lines[0], now, present)
      case Crash =>
      case Skip =>
        LoadAddsLive(lines[1..], now, present, added);
      case Dup(_) =>
      case Accept(q) =>
        assert Kept(q, q.id.value, now);
        LoadAddsLive(lines[1..], now, present + {q.id.value}, added[q.id.value := q]);
    }
  }

  /** Every pledge of `m` is kept under its key. */
  predicate AllKept(m: map<string, JsonPledge>, now: int)
  {
    forall k :: k in m ==> Kept(m[k], k, now)
  }

  /** A loaded pledge filed under `k`: live, complete (so with a queue id), with id `k`. */
  predicate Kept(jp: JsonPledge, k: string, now: int)
  {
    jp.id == Some(k) && now < jp.expiry && Complete(jp)
  }

  /** The records of `js`, one line each, as `write_chkpt` writes them. */
  function Records(js: seq<JsonPledge>): (r: seq<Option<JObj>>)
    requires forall j :: j in js ==> Complete(j)
    ensures |r| == |js|
  {
    if js == [] then [] else [Some(RecordOf(js[0]))] + Records(js[1..])
  }

  /** A written record of a live pledge is accepted as the pledge it was written from, less
      its dscp. */
  lemma RecordStep(j: JsonPledge, now: int, present: set<string>)
    requires now >= 0 && Complete(j) && now < j.expiry
    requires j.id.value !in present
    ensures StepOf(Decode(Some(RecordOf(j))), now, present) == Accept(j.(dscp := 0))
  {
    ChkptRoundTrip(j);
    assert Decode(Some(RecordOf(j))) == Some(j.(dscp := 0));
  }

  /** `acc` extended with the pledges of `js` by id, with the dscp a record does not keep. */
  function ById(js: seq<JsonPledge>, acc: map<string, JsonPledge>): (r: map<string, JsonPledge>)
    requires forall j :: j in js ==> j.id.Some?
    ensures forall j :: j in js ==> j.id.value in r
    ensures forall k :: k in acc ==> k in r
  {
    if js == [] then acc else ById(js[1..], acc[js[0].id.value := js[0].(dscp := 0)])
  }

  /** Complete pledges with distinct ids. */
  predicate Distinct(js: seq<JsonPledge>)
  {
    (forall i :: 0 <= i < |js| ==> Complete(js[i])) &&
    (forall i, j :: 0 <= i < j < |js| ==> js[i].id != js[j].id)
  }

  /** The tail of a distinct sequence is distinct and does not repeat the head's id. */
  lemma DistinctTail(js: seq<JsonPledge>)
    requires Distinct(js) && js != []
    ensures Distinct(js[1..])
    ensures forall k :: k in js[1..] ==> k in js && k.id != js[0].id
  {
    forall k | k in js[1..] ensures k in js && k.id != js[0].id {
      var i :| 0 <= i < |js[1..]| && js[1..][i] == k;
      assert js[i + 1] == k;
    }
    forall a, b | 0 <= a < b < |js[1..]| ensures js[1..][a].id != js[1..][b].id {
      assert js[1..][a] == js[a + 1] && js[1..][b] == js[b + 1];
    }
  }

  /** Reload round trip: reading back the records of live pledges with distinct ids adds every
      one of them with its saved fields (dscp 0), with no error and no crash. */
  lemma {:induction false} ReloadRestores(js: seq<JsonPledge>, now: int,
                                          present: set<string>, added: map<string, JsonPledge>)
    requires Distinct(js) && now >= 0
    requires forall j :: j in js ==> now < j.expiry && j.id.Some? && j.id.value !in present && j.id.value !in added
    ensures LoadFrom(DecodeAll(Records(js)), now, present, added) == Load(ById(js, added), None, false)
    decreases |js|
  {
    if js != [] {
      var j := js[0];
      RecordStep(j, now, present);
      var rs := Records(js);
      assert rs[0] == Some(RecordOf(j)) && rs[1..] == Records(js[1..]);
      DecodeAllTail(rs);
      var lines := DecodeAll(rs);
      var q := j.(dscp := 0);
      assert StepOf(lines[0], now, present) == Accept(q);
      assert LoadFrom(lines, now, present, added) ==
             LoadFrom(lines[1..], now, present + {q.id.value}, added[q.id.value := q]);
      DistinctTail(js);
      ReloadRestores(js[1..], now, present + {j.id.value}, added[j.id.value := q]);
    }
  }

  /** The body of the `load_chkpt` loop for one decoded line: a fresh pledge holding what
      `From_json` decoded; a live one is handed to the network, which grants it. */
  method ReadLine(d: Option<JsonPledge>, now: int, present: set<string>)
    returns (p: Pledge, st: Step)
    requires now >= 0
    ensures st == StepOf(d, now, present)
    ensures fresh(p) && !p.pushed
    ensures st.Accept? ==> Saved(p) == st.jp && p.id == st.jp.id.value
  {
    p := new Pledge("", "", 0, 0, 0, 0, "", "", 0);
    if d.None? {
      // the empty pledge is expired, and logging it dereferences its nil host
      return p, Crash;
    }
    var jp := d.value;
    p.Assign(jp);
    if IsExpired(p, now) {
      // logging the pledge dereferences its hosts, id and queue id
      st := if Printable(jp) then Skip else Crash;
    } else if jp.id.None? {
      // filing the pledge dereferences its id
      st := Crash;
    } else if jp.id.value in present {
      st := Dup(jp.id.value);
    } else if Complete(jp) {
      st := Accept(jp);
    } else {
      // logging the filed pledge dereferences its nil pointer
      st := Crash;
    }
  }

  /** One pledge of the `push_reservations` loop: an unpushed pledge that is active or about to
      be is pushed, and marked pushed when the push gets through; the result tells whether it
      had already been pushed (which is what the loop counts). */
  method PushOne(p: Pledge, now: int, resolves: string -> bool) returns (already: bool)
    modifies p`pushed
    ensures already == old(p.pushed)
    ensures p.pushed == (old(p.pushed) || (old(Selected(p, now)) && old(PushSucceeds(p, resolves))))
  {
    already := p.pushed;
    if !p.pushed && (IsActive(p, now) || IsActiveSoon(p, now, PUSH_WINDOW)) && PushSucceeds(p, resolves) {
      SetPushed(p);
    }
  }

  /** Distinct keys hold distinct pledges. */
  predicate Injective(c: map<string, Pledge>)
  {
    forall a, b :: a in c && b in c && a != b ==> c[a] != c[b]
  }

  /** One pass of the `push_reservations` loop, for the pledge filed under `k`: since the
      keys hold distinct pledges, only that pledge's flag can change. */
  method PushKey(c: map<string, Pledge>, k: string, now: int, resolves: string -> bool) returns (already: bool)
    requires Injective(c) && k in c
    modifies {c[k]}`pushed
    ensures already == old(c[k].pushed)
    ensures c[k].pushed == (old(c[k].pushed) || old(Selected(c[k], now) && PushSucceeds(c[k], resolves)))
    ensures forall k' :: k' in c && k' != k ==> c[k'].pushed == old(c[k'].pushed)
  {
    already := PushOne(c[k], now, resolves);
  }

  class Inventory {
    var cache: map<string, Pledge>

    /** Every pledge is filed under its own id (so distinct ids hold distinct pledges) and
        carries a queue id. */
    ghost predicate Valid()
      reads this, cache.Values`id, cache.Values`qid
    {
      forall k :: k in cache ==> cache[k].id == k && cache[k].qid.Some?
    }

    constructor ()
      ensures cache == map[] && Valid()
    {
      cache := map[];
    }

    /** `Add_res`: an id already present is an error and leaves the cache alone; otherwise the
        pledge is filed under its id. */
    method AddRes(p: Pledge) returns (err: Option<string>)
      requires Valid() && p.qid.Some?
      modifies this`cache
      ensures Valid()
      ensures old(p.id in cache) ==> err == Some("reservation already exists: " + p.id) && cache == old(cache)
      ensures !old(p.id in cache) ==> err.None? && cache == old(cache)[p.id := p]
    {
      if p.id in cache {
        return Some("reservation already exists: " + p.id);
      }
      cache := cache[p.id := p];
      err := None;
    }

    /** `Get_res`: a missing name is an error; a cookie that is neither the pledge's key nor the
        super cookie yields no pledge and an error. */
    function GetRes(name: string, cookie: string, superCookie: string): (r: (Pledge?, Option<string>))
      reads this, cache.Values
      ensures r.0 != null <==> r.1.None?
      ensures r.0 != null <==> name in cache && Authorised(cache[name], cookie, superCookie)
      ensures r.0 != null ==> r.0 == cache[name]
    {
      if name !in cache then (null, Some("cannot find reservation: " + name))
      else if !Authorised(cache[name], cookie, superCookie) then (null, Some("not authorised to access or delete reservation: " + name))
      else (cache[name], None)
    }

    /** `Del_res`: the entry is never removed; an authorised delete moves the expiry to
        now + 15, a failed one changes nothing. No other field is written. */
    method DelRes(name: string, cookie: string, superCookie: string, now: int) returns (err: Option<string>)
      requires Valid()
      modifies (if name in cache then {cache[name]} else {})`expiry
      ensures Valid()
      ensures err.None? <==> name in cache && Authorised(cache[name], cookie, superCookie)
      ensures name in cache ==> cache[name].expiry == if err.None? then now + DELETE_GRACE else old(cache[name].expiry)
      ensures forall k :: k in cache && k != name ==> cache[k].expiry == old(cache[k].expiry)
    {
      assert forall k :: k in cache && k != name && name in cache ==> cache[k] != cache[name] by {
        forall k | k in cache && k != name && name in cache ensures cache[k] != cache[name] {
          assert cache[k].id == k && cache[name].id == name;
        }
      }
      var (p, e) := GetRes(name, cookie, superCookie);
      if p != null {
        p.SetExpiry(now + DELETE_GRACE);
        err := None;
      } else {
        err := e;
      }
    }

    /** Ids whose pledge the cookie opens. */
    ghost function Opened(cookie: string, superCookie: string): set<string>
      reads this, cache.Values
    {
      set k | k in cache && Authorised(cache[k], cookie, superCookie)
    }

    /** `Del_all_res`: every id of a snapshot is tried; the count is the number of pledges the
        cookie opens, and exactly those now expire in 15 s. */
    method DelAllRes(cookie: string, superCookie: string, now: int) returns (ndel: nat)
      requires Valid()
      modifies cache.Values`expiry
      ensures Valid()
      ensures ndel == old(|Opened(cookie, superCookie)|)
      ensures forall k :: k in cache ==>
        cache[k].expiry == (if old(Authorised(cache[k], cookie, superCookie)) then now + DELETE_GRACE else old(cache[k].expiry))
    {
      ghost var unlocked := Opened(cookie, superCookie);
      ghost var c := cache;
      ndel := 0;
      var todo := cache.Keys;
      ghost var counted: set<string> := {};
      while todo != {}
        invariant Valid() && cache == c
        invariant todo <= c.Keys
        invariant forall k :: k in todo ==> c[k].expiry == old(c[k].expiry) && k !in counted
        invariant forall k :: k in c && k !in todo ==>
          c[k].expiry == (if k in unlocked then now + DELETE_GRACE else old(c[k].expiry))
        invariant forall k :: k in counted <==> k in c && k !in todo && k in unlocked
        invariant ndel == |counted|
        decreases |todo|
      {
        var k :| k in todo;
        assert k in unlocked <==> Authorised(c[k], cookie, superCookie);
        var err := DelRes(k, cookie, superCookie, now);
        if err.None? {
          counted := counted + {k};
          ndel := ndel + 1;
        }
        todo := todo - {k};
      }
      assert counted == unlocked;
    }

    /** `pause_on`: every pledge is paused and must be pushed again. */
    method PauseOn()
      requires Valid()
      modifies cache.Values`paused, cache.Values`pushed
      ensures Valid()
      ensures forall k :: k in cache ==> cache[k].paused && !cache[k].pushed
    {
      var todo := cache.Keys;
      while todo != {}
        invariant todo <= cache.Keys
        invariant forall k :: k in cache && k !in todo ==> cache[k].paused && !cache[k].pushed
        decreases |todo|
      {
        var k :| k in todo;
        cache[k].Pause(true);
        todo := todo - {k};
      }
    }

    /** `pause_off`: every pledge is resumed and must be pushed again. */
    method PauseOff()
      requires Valid()
      modifies cache.Values`paused, cache.Values`pushed
      ensures Valid()
      ensures forall k :: k in cache ==> !cache[k].paused && !cache[k].pushed
    {
      var todo := cache.Keys;
      while todo != {}
        invariant todo <= cache.Keys
        invariant forall k :: k in cache && k !in todo ==> !cache[k].paused && !cache[k].pushed
        decreases |todo|
      {
        var k :| k in todo;
        cache[k].Resume(true);
        todo := todo - {k};
      }
    }

    /** `any_concluded(past)`: some pledge expired within the last `past` seconds. */
    method AnyConcluded(now: int, past: int) returns (b: bool)
      ensures b <==> exists k :: k in cache && ConcludedRecently(cache[k], now, past)
    {
      var todo := cache.Keys;
      while todo != {}
        invariant todo <= cache.Keys
        invariant forall k :: k in cache && k !in todo ==> !ConcludedRecently(cache[k], now, past)
        decreases |todo|
      {
        var k :| k in todo;
        if ConcludedRecently(cache[k], now, past) {
          return true;
        }
        todo := todo - {k};
      }
      return false;
    }

    /** `any_commencing(past, future)`: some pledge commenced within `past` seconds or will
        commence within `future` seconds. */
    method AnyCommencing(now: int, past: int, future: int) returns (b: bool)
      ensures b <==> exists k :: k in cache && (CommencedRecently(cache[k], now, past) || IsActiveSoon(cache[k], now, future))
    {
      var todo := cache.Keys;
      while todo != {}
        invariant todo <= cache.Keys
        invariant forall k :: k in cache && k !in todo ==> !(CommencedRecently(cache[k], now, past) || IsActiveSoon(cache[k], now, future))
        decreases |todo|
      {
        var k :| k in todo;
        if CommencedRecently(cache[k], now, past) || IsActiveSoon(cache[k], now, future) {
          return true;
        }
        todo := todo - {k};
      }
      return false;
    }

    /** `push_reservations`: the selected pledges are pushed (marked when the push goes
        through); only the pushed flags are written. The value returned is the number of
        pledges that were ALREADY pushed, not the number pushed by this call. */
    method PushReservations(now: int, resolves: string -> bool) returns (n: nat)
      requires Valid()
      modifies cache.Values`pushed
      ensures Valid()
      ensures forall k :: k in cache ==>
        cache[k].pushed == (old(cache[k].pushed) || old(Selected(cache[k], now) && PushSucceeds(cache[k], resolves)))
      ensures n == old(|set k | k in cache && cache[k].pushed|)
    {
      ghost var was := set k | k in cache && cache[k].pushed;
      var c := cache;
      assert Injective(c) by {
        forall a, b | a in c && b in c && c[a] == c[b] ensures a == b {
          assert c[a].id == a && c[b].id == b;
        }
      }
      n := 0;
      var todo := c.Keys;
      ghost var counted: set<string> := {};
      while todo != {}
        invariant todo <= c.Keys
        invariant forall k :: k in todo ==> c[k].pushed == old(c[k].pushed)
        invariant forall k :: k in c && k !in todo ==>
          c[k].pushed == (old(c[k].pushed) || old(Selected(c[k], now) && PushSucceeds(c[k], resolves)))
        invariant forall k :: k in counted <==> k in c && k !in todo && k in was
        invariant n == |counted|
        decreases |todo|
      {
        var k :| k in todo;
        var already := PushKey(c, k, now, resolves);
        if already {
          counted := counted + {k};
          n := n + 1;
        }
        todo := todo - {k};
      }
      assert counted == was;
    }

    /** `write_chkpt`: when the file cannot be created nothing happens; otherwise a record is
        written for every pledge that is not expired, and the purgeable ones are deleted. */
    method WriteChkpt(now: int, created: bool) returns (written: set<string>)
      requires Valid()
      modifies this`cache
      ensures Valid()
      ensures !created ==> cache == old(cache) && written == {}
      ensures created ==> written == set k | k in old(cache) && !IsExpired(old(cache)[k], now)
      ensures created ==> cache.Keys == set k | k in old(cache) && !Purged(old(cache)[k], now)
      ensures forall k :: k in cache ==> k in old(cache) && cache[k] == old(cache)[k]
    {
      written := {};
      if !created {
        return;
      }
      ghost var c0 := cache;
      ghost var live := set k | k in c0 && !IsExpired(c0[k], now);
      ghost var keep := set k | k in c0 && !Purged(c0[k], now);
      var todo := cache.Keys;
      while todo != {}
        invariant todo <= c0.Keys
        invariant forall k :: k in cache <==> k in c0 && (k in todo || k in keep)
        invariant forall k :: k in cache ==> cache[k] == c0[k]
        invariant forall k :: k in written <==> k in c0 && k !in todo && k in live
        decreases |todo|
      {
        var k :| k in todo;
        var p := cache[k];
        if !IsExpired(p, now) {
          written := written + {k};
        } else if IsExtinct(p, now, EXTINCT_WINDOW) && IsPushed(p) {
          cache := cache - {k};
        }
        todo := todo - {k};
      }
    }

    /** One line of `load_chkpt`: a crash or a skipped line leaves the inventory alone; an
        accepted pledge whose id is present is an error; otherwise a complete pledge is added
        as a fresh, unpushed pledge, and an incomplete one crashes when `Add_res` logs it. */
    method LoadLine(d: Option<JsonPledge>, now: int) returns (err: Option<string>, crashed: bool)
      requires Valid() && now >= 0
      modifies this`cache
      ensures Valid()
      ensures crashed <==> StepOf(d, now, old(cache).Keys).Crash?
      ensures !StepOf(d, now, old(cache).Keys).Accept? ==> cache == old(cache)
      ensures StepOf(d, now, old(cache).Keys).Dup? <==> err.Some?
      ensures StepOf(d, now, old(cache).Keys).Dup? ==>
        err == Some("reservation already exists: " + StepOf(d, now, old(cache).Keys).id)
      ensures StepOf(d, now, old(cache).Keys).Accept? ==>
        var q := StepOf(d, now, old(cache).Keys).jp;
        && cache.Keys == old(cache).Keys + {q.id.value}
        && (forall k :: k in old(cache) ==> cache[k] == old(cache)[k])
        && fresh(cache[q.id.value]) && !cache[q.id.value].pushed && Saved(cache[q.id.value]) == q
    {
      var p, st := ReadLine(d, now, cache.Keys);
      err, crashed := None, st.Crash?;
      if st.Dup? {
        // `Add_res` refuses an id already filed
        err := Some("reservation already exists: " + st.id);
      } else if st.Accept? {
        err := AddRes(p);
      }
    }

    /** `load_chkpt` over the lines of the file as `From_json` decodes them (`DecodeAll`):
        the lines are read in order and the result agrees with `LoadSpec`; unless the process
        crashed, exactly the accepted pledges were added, as unpushed pledges, and
        the reservations present before are untouched. */
    method LoadChkpt(ds: seq<Option<JsonPledge>>, now: int) returns (err: Option<string>, crashed: bool)
      requires Valid() && now >= 0
      modifies this`cache
      ensures Valid()
      ensures var r := LoadSpec(ds, now, old(cache).Keys);
        crashed == r.crashed && (!crashed ==> err == r.err && cache.Keys == old(cache).Keys + r.added.Keys)
      ensures forall k :: k in old(cache) ==> k in cache && cache[k] == old(cache)[k]
      ensures forall k :: k in cache && k !in old(cache) ==>
        !cache[k].pushed && k in LoadSpec(ds, now, old(cache).Keys).added &&
        Saved(cache[k]) == LoadSpec(ds, now, old(cache).Keys).added[k]
    {
      err, crashed := None, false;
      ghost var whole := LoadSpec(ds, now, cache.Keys);
      ghost var added: map<string, JsonPledge> := map[];
      var i := 0;
      while i < |ds| && !crashed && err.None?
        invariant 0 <= i <= |ds|
        invariant Valid()
        invariant cache.Keys == old(cache).Keys + added.Keys
        invariant forall k :: k in old(cache) ==> k in cache && cache[k] == old(cache)[k]
        invariant forall k :: k in cache && k !in old(cache) ==> !cache[k].pushed && k in added && Saved(cache[k]) == added[k]
        invariant whole == if !crashed && err.None? then LoadFrom(ds[i..], now, cache.Keys, added)
                           else Load(added, if crashed then None else err, crashed)
      {
        assert ds[i..][0] == ds[i] && ds[i..][1..] == ds[i + 1..];
        ghost var st := StepOf(ds[i], now, cache.Keys);
        err, crashed := LoadLine(ds[i], now);
        if st.Accept? {
          added := added[st.jp.id.value := st.jp];
        }
        i := i + 1;
      }
      if !crashed && err.None? {
        assert ds[i..] == [];
      }
    }

    /** `res2json`: the listing holds exactly the pledges that are not expired. */
    method Res2Json(now: int) returns (listed: set<string>)
      ensures listed == set k | k in cache && !IsExpired(cache[k], now)
    {
      listed := {};
      var todo := cache.Keys;
      while todo != {}
        invariant todo <= cache.Keys
        invariant listed == set k | k in cache && k !in todo && !IsExpired(cache[k], now)
        decreases |todo|
      {
        var k :| k in todo;
        if !IsExpired(cache[k], now) {
          listed := listed + {k};
        }
        todo := todo - {k};
      }
    }

    /** `failed_push`: the named pledge, when present, is marked unpushed. */
    method FailedPush(pid: string)
      requires Valid()
      modifies (if pid in cache then {cache[pid]} else {})`pushed
      ensures Valid()
      ensures pid in cache ==> !cache[pid].pushed
    {
      if pid in cache {
        ResetPushed(cache[pid]);
      }
    }
  }
}
