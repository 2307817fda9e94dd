/** The physical topology generator (system/toponet.py): port-number and host-name
    normalisation, links and their JSON text, the lldpctl dump parser, the chunk reader of
    the switch CLI loader and the switch type test. Regular-expression
    recognition of lines is given as classified input where it is not modelled. */
module Toponet {
  import opened Wrappers
  import opened Strs
  import opened Nums

  // ---- normalizePortNum ------------------------------------------------------------------

  /** The pattern "(\d+)/(\d+)" matches at `k`: a run of digits starting there (taken
      whole, as a greedy match that cannot backtrack onto a '/' does), a '/', and at least
      one digit. */
  predicate MatchAt(s: string, k: nat)
    requires k <= |s|
  {
    var a := LeadDigits(s[k..]);
    var j := k + |a|;
    |a| > 0 && j < |s| && s[j] == '/' && |LeadDigits(s[j + 1..])| > 0
  }

  /** The two groups of the match at `k`. */
  function GroupsAt(s: string, k: nat): (g: (string, string))
    requires k <= |s| && MatchAt(s, k)
  {
    var a := LeadDigits(s[k..]);
    (a, LeadDigits(s[k + |a| + 1..]))
  }

  /** `re.search` from position `i` on: the groups of the leftmost match. */
  function Search(s: string, i: nat): (r: Option<(string, string)>)
    requires i <= |s|
    decreases |s| - i
  {
    if i == |s| then None
    else if MatchAt(s, i) then Some(GroupsAt(s, i))
    else Search(s, i + 1)
  }

  /** The search finds nothing exactly when the pattern matches nowhere, and otherwise
      gives the groups of the leftmost match. */
  lemma SearchLeftmost(s: string, i: nat)
    requires i <= |s|
    ensures Search(s, i).None? <==> forall k :: i <= k < |s| ==> !MatchAt(s, k)
    ensures Search(s, i).Some? ==>
      exists k :: i <= k < |s| && MatchAt(s, k) && Search(s, i) == Some(GroupsAt(s, k)) &&
        forall k' :: i <= k' < k ==> !MatchAt(s, k')
  {
    SearchNone(s, i);
    if Search(s, i).Some? {
      var k := SearchFound(s, i);
    }
  }

  /** The search finds nothing exactly when the pattern matches nowhere from `i` on. */
  lemma {:induction false} SearchNone(s: string, i: nat)
    requires i <= |s|
    ensures Search(s, i).None? <==> forall k :: i <= k < |s| ==> !MatchAt(s, k)
    decreases |s| - i
  {
    if i < |s| && !MatchAt(s, i) {
      SearchNone(s, i + 1);
    }
  }

  /** A successful search reports the groups of the leftmost match, at `k`. */
  lemma {:induction false} SearchFound(s: string, i: nat) returns (k: nat)
    requires i <= |s| && Search(s, i).Some?
    ensures i <= k < |s| && MatchAt(s, k) && Search(s, i) == Some(GroupsAt(s, k))
    ensures forall k' :: i <= k' < k ==> !MatchAt(s, k')
    decreases |s| - i
  {
    if MatchAt(s, i) {
      k := i;
    } else {
      k := SearchFound(s, i + 1);
    }
  }

  /** A match needs a '/'. */
  lemma MatchNeedsSlash(s: string, k: nat)
    requires k <= |s| && MatchAt(s, k)
    ensures '/' in s
  {
    var a := LeadDigits(s[k..]);
    assert s[k + |a|] == '/';
  }

  /** `normalizePortNum(port)`: a Cisco "card/port" number becomes the two digit runs run
      together; anything else is returned unchanged. */
  function NormalizePortNum(port: string): (r: string)
    ensures Search(port, 0).None? ==> r == port
    ensures Search(port, 0).Some? ==> AllDigits(r) && '/' !in r
  {
    match Search(port, 0)
    case Some((a, b)) =>
      SearchDigits(port, 0);
      a + b
    case None => port
  }

  /** The groups of a match are non-empty digit runs. */
  lemma {:induction false} SearchDigits(s: string, i: nat)
    requires i <= |s|
    ensures Search(s, i).Some? ==>
      var (a, b) := Search(s, i).value; |a| > 0 && |b| > 0 && AllDigits(a) && AllDigits(b) && AllDigits(a + b)
    decreases |s| - i
  {
    if i < |s| && !MatchAt(s, i) {
      SearchDigits(s, i + 1);
    }
  }

  /** Normalising a port number twice changes nothing more. */
  lemma NormalizePortNumIdempotent(port: string)
    ensures NormalizePortNum(NormalizePortNum(port)) == NormalizePortNum(port)
  {
    var r := NormalizePortNum(port);
    if Search(port, 0).Some? {
      SearchLeftmost(r, 0);
      forall k | 0 <= k < |r|
        ensures !MatchAt(r, k)
      {
        if MatchAt(r, k) {
          MatchNeedsSlash(r, k);
        }
      }
    }
  }

  /** A Cisco "2/1" becomes "21"; an Arista "7" stays "7". */
  lemma NormalizePortNumExamples()
    ensures NormalizePortNum("2/1") == "21"
    ensures NormalizePortNum("7") == "7"
  {
    assert MatchAt("2/1", 0) by {
      assert LeadDigits("2/1") == "2";
      assert "2/1"[2..] == "1";
      assert LeadDigits("1") == "1";
    }
    assert GroupsAt("2/1", 0) == ("2", "1") by {
      assert LeadDigits("2/1") == "2";
      assert "2/1"[2..] == "1";
      assert LeadDigits("1") == "1";
    }
    SearchLeftmost("7", 0);
    assert !MatchAt("7", 0) by {
      assert "7"[0..] == "7";
      assert LeadDigits("7") == "7";
    }
  }

  // ---- host names ---------------------------------------------------------------------------

  /** Stripping keeps a slice of the text, so it adds no character. */
  lemma {:induction false} StripChars(s: string)
    ensures forall c :: c in Strip(s) ==> c in s
  {
    StripLeftChars(s);
    StripRightChars(StripLeft(s));
  }

  lemma {:induction false} StripLeftChars(s: string)
    ensures forall c :: c in StripLeft(s) ==> c in s
  {
    if |s| > 0 && IsSpace(s[0]) {
      StripLeftChars(s[1..]);
    }
  }

  lemma {:induction false} StripRightChars(s: string)
    ensures forall c :: c in StripRight(s) ==> c in s
  {
    if |s| > 0 && IsSpace(s[|s| - 1]) {
      StripRightChars(s[..|s| - 1]);
    }
  }

  /** Stripped text strips to itself. */
  lemma StripStable(s: string)
    ensures Strip(Strip(s)) == Strip(s)
  {
    var r := Strip(s);
    assert StripLeft(r) == r;
    assert StripRight(r) == r;
  }

  /** `normalizeHostname(h)`: the stripped text before the first '.'. */
  function NormalizeHostname(h: string): (r: string)
    ensures '.' !in r
  {
    var first := Split(h, '.')[0];
    StripChars(first);
    Strip(first)
  }

  /** The first piece of a split adds no character. */
  lemma {:induction false} SplitFirstChars(s: string, c: char)
    ensures forall ch :: ch in Split(s, c)[0] ==> ch in s
  {
    if |s| > 0 && s[0] != c {
      SplitFirstChars(s[1..], c);
    }
  }

  /** `shortName(n)`: the stripped text before the first '@' and the first '.'. */
  function ShortName(n: string): (r: string)
    ensures '.' !in r && '@' !in r
  {
    var first := Split(Split(n, '@')[0], '.')[0];
    StripChars(first);
    SplitFirstChars(Split(n, '@')[0], '.');
    Strip(first)
  }

  /** A name without '.' (and, for short names, without '@') is kept up to surrounding
      white space, so both normalisations are idempotent. */
  lemma HostnamesIdempotent(h: string)
    ensures NormalizeHostname(NormalizeHostname(h)) == NormalizeHostname(h)
    ensures ShortName(ShortName(h)) == ShortName(h)
    ensures '.' !in h && '@' !in h ==> ShortName(h) == NormalizeHostname(h) == Strip(h)
  {
    StripStable(Split(h, '.')[0]);
    StripStable(Split(Split(h, '@')[0], '.')[0]);
  }

  // ---- Link ---------------------------------------------------------------------------

  const DEF_HOSTCAPACITY: string := "1000000000"
  const DEF_SWITCHCAPACITY: string := "10000000000"

  /** A link between two elements; ports, capacity and the JSON type are kept as the text
      written out. */
  datatype Link = Link(src: string, srcPort: string, dst: string, dstPort: string,
                       ltype: string, capacity: string, bidi: bool, mlag: string)

  /** `Link(src, srcPort, dst, dstPort, mlag)`: an internal, bidirectional link of host
      capacity. */
  function NewLink(src: string, srcPort: string, dst: string, dstPort: string, mlag: string): (l: Link)
    ensures l.src == src && l.srcPort == srcPort && l.dst == dst && l.dstPort == dstPort && l.mlag == mlag
    ensures l.ltype == "internal" && l.capacity == DEF_HOSTCAPACITY && l.bidi
  {
    Link(src, srcPort, dst, dstPort, "internal", DEF_HOSTCAPACITY, true, mlag)
  }

  /** A member of a JSON object: its key and the JSON text of its value. */
  datatype Member = Member(key: string, text: string)

  function Quoted(s: string): string { "\"" + s + "\"" }

  /** The members a link is written with: the ends, the type, the direction only when the
      link is bidirectional, the capacity, and the MLAG group only when there is one. */
  function LinkMembers(l: Link): (ms: seq<Member>)
  {
    [Member("src-switch", Quoted(l.src)), Member("src-port", l.srcPort),
     Member("dst-switch", Quoted(l.dst)), Member("dst-port", l.dstPort),
     Member("type", Quoted(l.ltype))] +
    (if l.bidi then [Member("direction", Quoted("bidirectional"))] else []) +
    [Member("capacity", l.capacity)] +
    (if l.mlag != "" then [Member("mlag", Quoted(l.mlag))] else [])
  }

  /** The keys of a list of members. */
  function Keys(ms: seq<Member>): (ks: seq<string>)
    ensures |ks| == |ms|
    ensures forall i :: 0 <= i < |ms| ==> ks[i] == ms[i].key
  {
    if ms == [] then [] else [ms[0].key] + Keys(ms[1..])
  }

  /** The keys are distinct; "direction" is written exactly for bidirectional links and
      "mlag" exactly for links in an MLAG group, whose value is the quoted group name. */
  lemma LinkMembersKeys(l: Link)
    ensures var ks := Keys(LinkMembers(l));
      && (forall i, j :: 0 <= i < j < |ks| ==> ks[i] != ks[j])
      && ("direction" in ks <==> l.bidi)
      && ("mlag" in ks <==> l.mlag != "")
      && |ks| == 6 + (if l.bidi then 1 else 0) + (if l.mlag != "" then 1 else 0)
    ensures l.mlag != "" ==> LinkMembers(l)[|LinkMembers(l)| - 1] == Member("mlag", Quoted(l.mlag))
  {
    var ks := Keys(LinkMembers(l));
    var base := ["src-switch", "src-port", "dst-switch", "dst-port", "type"];
    var all := base + (if l.bidi then ["direction"] else []) + ["capacity"] + (if l.mlag != "" then ["mlag"] else []);
    assert ks == all;
    KeysDistinct(l.bidi, l.mlag != "");
  }

  lemma KeysDistinct(bidi: bool, mlag: bool)
    ensures var all := ["src-switch", "src-port", "dst-switch", "dst-port", "type"] +
                       (if bidi then ["direction"] else []) + ["capacity"] + (if mlag then ["mlag"] else []);
      && (forall i, j :: 0 <= i < j < |all| ==> all[i] != all[j])
      && ("direction" in all <==> bidi) && ("mlag" in all <==> mlag)
  {
  }

  /** One member as `__str__` writes it: a tab, the quoted key, ": " and the value. */
  function MemberText(m: Member): string
  {
    "\t" + Quoted(m.key) + ": " + m.text
  }

  /** Member texts separated by ",\n". */
  function Body(ms: seq<Member>): string
  {
    if ms == [] then ""
    else if |ms| == 1 then MemberText(ms[0])
    else MemberText(ms[0]) + ",\n" + Body(ms[1..])
  }

  /** Joining one more member at the end. */
  lemma {:induction false} BodySnoc(ms: seq<Member>, m: Member)
    requires ms != []
    ensures Body(ms + [m]) == Body(ms) + ",\n" + MemberText(m)
  {
    if |ms| > 1 {
      BodySnoc(ms[1..], m);
      assert (ms + [m])[1..] == ms[1..] + [m];
    } else {
      assert (ms + [m])[1..] == [m];
    }
  }

  /** `Link.__str__`: the text is built line by line, each line ending in ",\n" but the
      capacity line, with the direction line only for bidirectional links and the MLAG
      line only for links in a group; the result is the JSON object of the link's
      members. */
  method LinkStr(l: Link) returns (output: string)
    ensures output == "{\n" + Body(LinkMembers(l)) + "\n}"
  {
    ghost var base := [Member("src-switch", Quoted(l.src)), Member("src-port", l.srcPort),
                       Member("dst-switch", Quoted(l.dst)), Member("dst-port", l.dstPort),
                       Member("type", Quoted(l.ltype))];
    ghost var dirMs := if l.bidi then [Member("direction", Quoted("bidirectional"))] else [];
    ghost var mlagMs := if l.mlag != "" then [Member("mlag", Quoted(l.mlag))] else [];
    output := "{\n";
    output := output + MemberText(Member("src-switch", Quoted(l.src))) + ",\n";
    assert output == "{\n" + Body(base[..1]) + ",\n";
    output := Put(output, base[..1], Member("src-port", l.srcPort));
    assert base[..1] + [base[1]] == base[..2];
    output := Put(output, base[..2], Member("dst-switch", Quoted(l.dst)));
    assert base[..2] + [base[2]] == base[..3];
    output := Put(output, base[..3], Member("dst-port", l.dstPort));
    assert base[..3] + [base[3]] == base[..4];
    output := Put(output, base[..4], Member("type", Quoted(l.ltype)));
    assert base[..4] + [base[4]] == base;
    if l.bidi {
      output := Put(output, base, Member("direction", Quoted("bidirectional")));
      assert base + [dirMs[0]] == base + dirMs;
      assert output == "{\n" + Body(base + dirMs) + ",\n";
    } else {
      assert base + dirMs == base;
      assert output == "{\n" + Body(base + dirMs) + ",\n";
    }
    ghost var ms := base + dirMs;
    output := PutLast(output, ms, Member("capacity", l.capacity));
    ms := ms + [Member("capacity", l.capacity)];
    if l.mlag != "" {
      output := PutMore(output, ms, Member("mlag", Quoted(l.mlag)));
      assert ms + [mlagMs[0]] == ms + mlagMs;
      assert output == "{\n" + Body(ms + mlagMs);
    } else {
      assert ms + mlagMs == ms;
      assert output == "{\n" + Body(ms + mlagMs);
    }
    ms := ms + mlagMs;
    Close(output, ms, l);
    output := output + "\n}";
  }

  lemma Close(output: string, ms: seq<Member>, l: Link)
    requires output == "{\n" + Body(ms)
    requires ms == [Member("src-switch", Quoted(l.src)), Member("src-port", l.srcPort),
                    Member("dst-switch", Quoted(l.dst)), Member("dst-port", l.dstPort),
                    Member("type", Quoted(l.ltype))] +
                   (if l.bidi then [Member("direction", Quoted("bidirectional"))] else []) +
                   [Member("capacity", l.capacity)] +
                   (if l.mlag != "" then [Member("mlag", Quoted(l.mlag))] else [])
    ensures output + "\n}" == "{\n" + Body(LinkMembers(l)) + "\n}"
  {
  }

  /** The capacity line, which has no trailing ",\n". */
  method PutLast(output: string, ghost ms: seq<Member>, m: Member) returns (o: string)
    requires ms != [] && output == "{\n" + Body(ms) + ",\n"
    ensures o == "{\n" + Body(ms + [m])
  {
    BodySnoc(ms, m);
    o := output + MemberText(m);
  }

  /** The MLAG line, written after a ",\n" of its own. */
  method PutMore(output: string, ghost ms: seq<Member>, m: Member) returns (o: string)
    requires ms != [] && output == "{\n" + Body(ms)
    ensures o == "{\n" + Body(ms + [m])
  {
    BodySnoc(ms, m);
    o := output + ",\n" + MemberText(m);
  }

  /** One more line, with its trailing ",\n". */
  method Put(output: string, ghost ms: seq<Member>, m: Member) returns (o: string)
    requires ms != [] && output == "{\n" + Body(ms) + ",\n"
    ensures o == "{\n" + Body(ms + [m]) + ",\n"
  {
    BodySnoc(ms, m);
    o := output + MemberText(m) + ",\n";
  }

  // ---- parseLldpCtl -------------------------------------------------------------------

  /** A line of lldpctl output as the parser's patterns see it: an "Interface:" line (with
      the host name in front when the dump covers several hosts), a line holding the dashed
      separator, or any other line with the values its SysName, PortID and PortAggregID
      patterns capture. */
  datatype LldpLine =
    | Iface(host: Option<string>, iface: string)
    | Dashes
    | Attrs(dst: Option<string>, dstPort: Option<string>, mlag: Option<string>)

  type Hosts = map<string, map<string, Link>>

  /** The parser's state: the links stored so far by host and interface, the link being
      read, its host and interface, and whether that link is the very object stored under
      them (so that later attribute lines change the stored link too). */
  datatype Lldp = Lldp(hosts: Hosts, cur: Option<Link>, host: string, iface: string, shared: bool)

  /** A shared link is the one stored under the current host and interface. */
  predicate Aliased(st: Lldp)
  {
    st.shared ==> st.cur.Some? && st.host in st.hosts && st.iface in st.hosts[st.host] &&
                  st.hosts[st.host][st.iface] == st.cur.value
  }

  function Init(hosts0: Hosts): Lldp
  {
    Lldp(hosts0, None, "", "", false)
  }

  /** `hosts[h][i] = l`, creating the host's table when needed. */
  function Store(hosts: Hosts, h: string, i: string, l: Link): (r: Hosts)
    ensures h in r && i in r[h] && r[h][i] == l
    ensures forall h', i' :: h' in r && i' in r[h'] && (h' != h || i' != i) ==>
      h' in hosts && i' in hosts[h'] && r[h'][i'] == hosts[h'][i']
    ensures forall h', i' :: h' in hosts && i' in hosts[h'] ==> h' in r && i' in r[h']
  {
    hosts[h := (if h in hosts then hosts[h] else map[])[i := l]]
  }

  /** Storing the link already stored under a host and interface changes nothing. */
  lemma StoreSame(hosts: Hosts, h: string, i: string, l: Link)
    requires h in hosts && i in hosts[h] && hosts[h][i] == l
    ensures Store(hosts, h, i, l) == hosts
  {
    assert hosts[h][i := l] == hosts[h];
  }

  /** The attributes an attribute line sets on the current link. */
  function SetAttrs(l: Link, dst: Option<string>, dstPort: Option<string>, mlag: Option<string>): Link
  {
    l.(dst := dst.GetOr(l.dst), dstPort := dstPort.GetOr(l.dstPort), mlag := mlag.GetOr(l.mlag))
  }

  /** One line of the parser loop; None when the host name is needed but the line has none
      (Python raises on the missing name). */
  function Step(st: Lldp, line: LldpLine, thisHost: Option<string>, ifacelist: set<string>): (r: Option<Lldp>)
    requires Aliased(st)
    ensures r.Some? ==> Aliased(r.value)
    ensures r.None? <==> line.Iface? && (ifacelist == {} || line.iface in ifacelist) &&
                         (thisHost.None? || thisHost.value == "") && line.host.None?
  {
    match line
    case Iface(lineHost, ifc) =>
      if ifacelist == {} || ifc in ifacelist then
        var raw := if thisHost.Some? && thisHost.value != "" then thisHost else lineHost;
        if raw.None? then None
        else
          var h := NormalizeHostname(raw.value);
          Some(Lldp(st.hosts, Some(NewLink(h + "@" + ifc, "-128", "", "-128", "")), h, ifc, false))
      else Some(st.(cur := None, shared := false))
    case Dashes =>
      if st.cur.None? then Some(st)
      else
        var l := st.cur.value.(dst := NormalizeHostname(st.cur.value.dst),
                               dstPort := NormalizePortNum(st.cur.value.dstPort),
                               mlag := "mlag_" + st.host);
        Some(Lldp(Store(st.hosts, st.host, st.iface, l), Some(l), st.host, st.iface, true))
    case Attrs(d, p, m) =>
      if st.cur.None? then Some(st)
      else
        var l := SetAttrs(st.cur.value, d, p, m);
        Some(st.(hosts := if st.shared then Store(st.hosts, st.host, st.iface, l) else st.hosts, cur := Some(l)))
  }

  /** The parser state after a sequence of lines, or None once a line has raised. */
  function Run(lines: seq<LldpLine>, hosts0: Hosts, thisHost: Option<string>, ifacelist: set<string>): (r: Option<Lldp>)
    ensures r.Some? ==> Aliased(r.value)
  {
    if lines == [] then Some(Init(hosts0))
    else match Run(lines[..|lines| - 1], hosts0, thisHost, ifacelist)
      case None => None
      case Some(st) => Step(st, lines[|lines| - 1], thisHost, ifacelist)
  }

  /** A link as the parser creates it under host `h` and interface `i`: its source is
      "h@i" with port -128, the interface passed the filter, the host name is normalised,
      and type, capacity and direction keep their defaults. */
  predicate Shaped(h: string, i: string, l: Link, ifacelist: set<string>)
  {
    l.src == h + "@" + i && l.srcPort == "-128" && (ifacelist != {} ==> i in ifacelist) &&
    NormalizeHostname(h) == h && l.ltype == "internal" && l.capacity == DEF_HOSTCAPACITY && l.bidi
  }

  /** A link finished at a separator: normalised far end and port, MLAG group of its host. */
  predicate Clean(h: string, l: Link)
  {
    l.mlag == "mlag_" + h && NormalizeHostname(l.dst) == l.dst && NormalizePortNum(l.dstPort) == l.dstPort
  }

  /** The current link and every stored link are shaped. */
  predicate Good(st: Lldp, ifacelist: set<string>)
  {
    (st.cur.Some? ==> Shaped(st.host, st.iface, st.cur.value, ifacelist)) &&
    forall h, i :: h in st.hosts && i in st.hosts[h] ==> Shaped(h, i, st.hosts[h][i], ifacelist)
  }

  /** Every stored link is finished. */
  predicate AllClean(hosts: Hosts)
  {
    forall h, i :: h in hosts && i in hosts[h] ==> Clean(h, hosts[h][i])
  }

  /** Every line keeps the links shaped. */
  lemma StepGood(st: Lldp, line: LldpLine, thisHost: Option<string>, ifacelist: set<string>)
    requires Aliased(st) && Good(st, ifacelist)
    ensures Step(st, line, thisHost, ifacelist).Some? ==> Good(Step(st, line, thisHost, ifacelist).value, ifacelist)
  {
    match line
    case Iface(lineHost, ifc) =>
      if (ifacelist == {} || ifc in ifacelist) {
        var raw := if thisHost.Some? && thisHost.value != "" then thisHost else lineHost;
        if raw.Some? {
          HostnamesIdempotent(raw.value);
        }
      }
    case Dashes => DashesClean(st, thisHost, ifacelist);
    case Attrs(d, p, m) => AttrsGood(st, d, p, m, thisHost, ifacelist);
  }

  /** A separator keeps the links shaped and, when the stored links were finished, leaves
      every stored link finished. */
  lemma DashesClean(st: Lldp, thisHost: Option<string>, ifacelist: set<string>)
    requires Aliased(st) && Good(st, ifacelist)
    ensures var r := Step(st, Dashes, thisHost, ifacelist).value;
      Good(r, ifacelist) && (AllClean(st.hosts) ==> AllClean(r.hosts))
  {
    if st.cur.Some? {
      var c := st.cur.value;
      var l := c.(dst := NormalizeHostname(c.dst), dstPort := NormalizePortNum(c.dstPort), mlag := "mlag_" + st.host);
      HostnamesIdempotent(c.dst);
      NormalizePortNumIdempotent(c.dstPort);
      assert Clean(st.host, l);
      var r := Step(st, Dashes, thisHost, ifacelist).value;
      assert r.hosts == Store(st.hosts, st.host, st.iface, l);
      forall h, i | h in r.hosts && i in r.hosts[h]
        ensures Shaped(h, i, r.hosts[h][i], ifacelist) && (AllClean(st.hosts) ==> Clean(h, r.hosts[h][i]))
      {
        if h != st.host || i != st.iface {
          assert r.hosts[h][i] == st.hosts[h][i];
        }
      }
    }
  }

  lemma AttrsGood(st: Lldp, d: Option<string>, p: Option<string>, m: Option<string>,
                  thisHost: Option<string>, ifacelist: set<string>)
    requires Aliased(st) && Good(st, ifacelist)
    ensures Good(Step(st, Attrs(d, p, m), thisHost, ifacelist).value, ifacelist)
  {
    if st.cur.Some? && st.shared {
      var r := Step(st, Attrs(d, p, m), thisHost, ifacelist).value;
      forall h, i | h in r.hosts && i in r.hosts[h]
        ensures Shaped(h, i, r.hosts[h][i], ifacelist)
      {
        if h != st.host || i != st.iface {
          assert r.hosts[h][i] == st.hosts[h][i];
        }
      }
    }
  }

  /** From a table of shaped links (an empty one, say) every link stays shaped. */
  lemma {:induction false} RunGood(lines: seq<LldpLine>, hosts0: Hosts, thisHost: Option<string>, ifacelist: set<string>)
    requires Good(Init(hosts0), ifacelist)
    ensures Run(lines, hosts0, thisHost, ifacelist).Some? ==> Good(Run(lines, hosts0, thisHost, ifacelist).value, ifacelist)
  {
    if lines != [] {
      var front := lines[..|lines| - 1];
      RunGood(front, hosts0, thisHost, ifacelist);
      if Run(front, hosts0, thisHost, ifacelist).Some? {
        StepGood(Run(front, hosts0, thisHost, ifacelist).value, lines[|lines| - 1], thisHost, ifacelist);
      }
    }
  }

  /** The last interface or separator line. */
  function LastMark(lines: seq<LldpLine>): (r: Option<LldpLine>)
    ensures r.Some? ==> !r.value.Attrs?
  {
    if lines == [] then None
    else if lines[|lines| - 1].Attrs? then LastMark(lines[..|lines| - 1])
    else Some(lines[|lines| - 1])
  }

  /** An attribute line that sets nothing, as the header lines of an lldpctl listing. */
  predicate Blank(line: LldpLine)
  {
    line.Attrs? && line.dst.None? && line.dstPort.None? && line.mlag.None?
  }

  /** The dump follows the lldpctl layout: no attribute line that sets something comes
      after a separator without an interface line in between. */
  predicate Tidy(lines: seq<LldpLine>)
  {
    forall k :: 0 <= k < |lines| && lines[k].Attrs? && !Blank(lines[k]) ==> LastMark(lines[..k]) != Some(Dashes)
  }

  /** The usual lldpctl listing, whose header line between two separators sets nothing,
      is tidy. */
  lemma HeaderTidy()
    ensures Tidy([Dashes, Attrs(None, None, None), Dashes, Iface(None, "eth0"),
                  Attrs(Some("sw1"), None, None), Attrs(None, Some("1"), None), Dashes])
  {
  }

  /** In a tidy dump the links stored stay finished, and the current link is shared only
      right after a separator. */
  lemma {:induction false} RunTidy(lines: seq<LldpLine>, hosts0: Hosts, thisHost: Option<string>, ifacelist: set<string>)
    requires Good(Init(hosts0), ifacelist) && AllClean(hosts0) && Tidy(lines)
    ensures var r := Run(lines, hosts0, thisHost, ifacelist);
      r.Some? ==> AllClean(r.value.hosts) && (r.value.shared ==> LastMark(lines) == Some(Dashes))
  {
    if lines != [] {
      var front := lines[..|lines| - 1];
      assert Tidy(front) by {
        forall k | 0 <= k < |front| && front[k].Attrs? && !Blank(front[k])
          ensures LastMark(front[..k]) != Some(Dashes)
        {
          assert front[..k] == lines[..k];
        }
      }
      RunTidy(front, hosts0, thisHost, ifacelist);
      RunGood(front, hosts0, thisHost, ifacelist);
      var r := Run(front, hosts0, thisHost, ifacelist);
      if r.Some? {
        match lines[|lines| - 1]
        case Iface(_, _) =>
        case Dashes => DashesClean(r.value, thisHost, ifacelist);
        case Attrs(d, p, m) =>
          assert lines[..|lines| - 1] == front;
          var st := r.value;
          if st.cur.Some? && st.shared && Blank(lines[|lines| - 1]) {
            assert SetAttrs(st.cur.value, d, p, m) == st.cur.value;
            StoreSame(st.hosts, st.host, st.iface, st.cur.value);
          }
      }
    }
  }

  /** Reading a tidy dump into an empty table stores every link under its own host and
      interface, only for interfaces that pass the filter, with its far end and port
      normalised and the MLAG group "mlag_" + host. */
  lemma ParsedLinks(lines: seq<LldpLine>, thisHost: Option<string>, ifacelist: set<string>)
    requires Tidy(lines)
    requires Run(lines, map[], thisHost, ifacelist).Some?
    ensures var t := Run(lines, map[], thisHost, ifacelist).value.hosts;
      forall h, i :: h in t && i in t[h] ==> Shaped(h, i, t[h][i], ifacelist) && Clean(h, t[h][i])
  {
    RunGood(lines, map[], thisHost, ifacelist);
    RunTidy(lines, map[], thisHost, ifacelist);
  }

  /** At a separator the current link, finished, is stored under its host and interface
      and no other entry changes; without a current link nothing changes. */
  lemma SeparatorStores(st: Lldp, thisHost: Option<string>, ifacelist: set<string>)
    requires Aliased(st)
    ensures var r := Step(st, Dashes, thisHost, ifacelist).value;
      && (st.cur.None? ==> r == st)
      && (st.cur.Some? ==>
            r.hosts[st.host][st.iface] == st.cur.value.(dst := NormalizeHostname(st.cur.value.dst),
                                                        dstPort := NormalizePortNum(st.cur.value.dstPort),
                                                        mlag := "mlag_" + st.host) &&
            (forall h, i :: h in st.hosts && i in st.hosts[h] && (h != st.host || i != st.iface) ==>
               h in r.hosts && i in r.hosts[h] && r.hosts[h][i] == st.hosts[h][i]))
  {
  }

  /** An interface outside a non-empty filter drops the current link, after which
      attribute and separator lines change nothing. */
  lemma IgnoredInterface(st: Lldp, host: Option<string>, ifc: string, line: LldpLine,
                         thisHost: Option<string>, ifacelist: set<string>)
    requires Aliased(st) && ifacelist != {} && ifc !in ifacelist && !line.Iface?
    ensures var r := Step(st, Iface(host, ifc), thisHost, ifacelist).value;
      r.hosts == st.hosts && r.cur.None? && Step(r, line, thisHost, ifacelist) == Some(r)
  {
  }

  /** An attribute line after the separator changes the stored link itself (the parser
      keeps working on the object it stored). */
  lemma AttrsAfterSeparator(st: Lldp, d: Option<string>, p: Option<string>, m: Option<string>,
                            thisHost: Option<string>, ifacelist: set<string>)
    requires Aliased(st) && st.shared
    ensures var r := Step(st, Attrs(d, p, m), thisHost, ifacelist).value;
      r.hosts[st.host][st.iface] == SetAttrs(st.hosts[st.host][st.iface], d, p, m)
  {
  }

  /** Once a line has raised, the rest of the lines are not read. */
  lemma {:induction false} RunStopped(lines: seq<LldpLine>, k: nat, hosts0: Hosts, thisHost: Option<string>, ifacelist: set<string>)
    requires k <= |lines| && Run(lines[..k], hosts0, thisHost, ifacelist).None?
    ensures Run(lines, hosts0, thisHost, ifacelist).None?
    decreases |lines| - k
  {
    if k < |lines| {
      assert lines[..k + 1][..k] == lines[..k];
      RunStopped(lines, k + 1, hosts0, thisHost, ifacelist);
    } else {
      assert lines[..k] == lines;
    }
  }

  /** `parseLldpCtl(file, hosts, thisHost, ifacelist)`: reads the lines one by one and
      gives the updated host table, or None when a line raised. */
  method ParseLldpCtl(lines: seq<LldpLine>, hosts: Hosts, thisHost: Option<string>, ifacelist: set<string>)
    returns (r: Option<Hosts>)
    ensures r.Some? <==> Run(lines, hosts, thisHost, ifacelist).Some?
    ensures r.Some? ==> r.value == Run(lines, hosts, thisHost, ifacelist).value.hosts
  {
    var table := hosts;
    var currentLink: Option<Link> := None;
    var currentHost := "";
    var currentIface := "";
    var shared := false;
    var i := 0;
    while i < |lines|
      invariant 0 <= i <= |lines|
      invariant Run(lines[..i], hosts, thisHost, ifacelist) == Some(Lldp(table, currentLink, currentHost, currentIface, shared))
    {
      assert lines[..i + 1][..i] == lines[..i];
      var st := Lldp(table, currentLink, currentHost, currentIface, shared);
      match lines[i] {
      case Iface(lineHost, ifc) =>
        if ifacelist == {} || ifc in ifacelist {
          var raw := if thisHost.Some? && thisHost.value != "" then thisHost else lineHost;
          if raw.None? {
            RunStopped(lines, i + 1, hosts, thisHost, ifacelist);
            return None;
          }
          currentHost := NormalizeHostname(raw.value);
          currentIface := ifc;
          currentLink := Some(NewLink(currentHost + "@" + currentIface, "-128", "", "-128", ""));
        } else {
          currentLink := None;
        }
        shared := false;
      case Dashes =>
        if currentLink.Some? {
          var l := currentLink.value.(dst := NormalizeHostname(currentLink.value.dst),
                                      dstPort := NormalizePortNum(currentLink.value.dstPort),
                                      mlag := "mlag_" + currentHost);
          table := Store(table, currentHost, currentIface, l);
          currentLink := Some(l);
          shared := true;
        }
      case Attrs(d, p, m) =>
        if currentLink.Some? {
          var l := SetAttrs(currentLink.value, d, p, m);
          currentLink := Some(l);
          if shared {
            table := Store(table, currentHost, currentIface, l);
          }
        }
      }
      i := i + 1;
    }
    assert lines[..|lines|] == lines;
    r := Some(table);
  }

  // ---- SwitchFileLoader.loadChunk -----------------------------------------------------

  /** A text file read line by line: its lines (each with its newline) and the position
      of the next line to read. */
  class TextFile {
    var lines: seq<string>
    var pos: nat

    constructor(lines: seq<string>)
      ensures this.lines == lines && pos == 0
    {
      this.lines := lines;
      pos := 0;
    }

    /** `tell()`. */
    method Tell() returns (p: nat)
      ensures p == pos
    {
      p := pos;
    }

    /** `readline()`: the next line, or "" at the end of the file. */
    method ReadLine() returns (line: string)
      modifies this
      ensures lines == old(lines)
      ensures old(pos) < |lines| ==> line == lines[old(pos)] && pos == old(pos) + 1
      ensures old(pos) >= |lines| ==> line == "" && pos == old(pos)
    {
      if pos < |lines| {
        line := lines[pos];
        pos := pos + 1;
      } else {
        line := "";
      }
    }

    /** `seek(p)`. */
    method Seek(p: nat)
      modifies this
      ensures lines == old(lines) && pos == p
    {
      pos := p;
    }
  }

  /** The lines joined together. */
  function Concat(ls: seq<string>): string
  {
    if ls == [] then "" else Concat(ls[..|ls| - 1]) + ls[|ls| - 1]
  }

  /** Where a chunk that starts at `p` ends: the first line from `p` on that the end tag
      matches or that reads as the end of the file (an empty line), else the end. */
  function ChunkEnd(lines: seq<string>, p: nat, endTag: string -> bool): (k: nat)
    requires p <= |lines|
    ensures p <= k <= |lines|
    ensures forall j :: p <= j < k ==> lines[j] != "" && !endTag(lines[j])
    ensures k < |lines| ==> lines[k] == "" || endTag(lines[k])
    decreases |lines| - p
  {
    if p == |lines| || lines[p] == "" || endTag(lines[p]) then p
    else ChunkEnd(lines, p + 1, endTag)
  }

  /** `loadChunk(the_file, end_tag)`: the lines up to (not including) the first one the
      end tag matches, with the file left positioned at that line. */
  method LoadChunk(f: TextFile, endTag: string -> bool) returns (chunk: string)
    requires f.pos <= |f.lines|
    modifies f
    ensures f.lines == old(f.lines)
    ensures f.pos == ChunkEnd(f.lines, old(f.pos), endTag)
    ensures chunk == Concat(f.lines[old(f.pos)..f.pos])
  {
    ghost var p0 := f.pos;
    ghost var lines := f.lines;
    ghost var k := ChunkEnd(lines, p0, endTag);
    chunk := "";
    var done := false;
    while !done
      invariant f.lines == lines
      invariant p0 <= f.pos <= k
      invariant done ==> f.pos == k
      invariant chunk == Concat(lines[p0..f.pos])
      decreases |lines| - f.pos + (if done then 0 else 1)
    {
      var filePos := f.Tell();
      var line := f.ReadLine();
      ChunkEndAt(lines, p0, filePos, endTag);
      if endTag(line) || line == "" {
        f.Seek(filePos);
        done := true;
      } else {
        ConcatSlice(lines, p0, filePos);
        chunk := chunk + line;
      }
    }
  }

  /** A position up to the chunk's end is the end exactly when the file ends there or its
      line is empty or matches the end tag. */
  lemma ChunkEndAt(lines: seq<string>, p: nat, q: nat, endTag: string -> bool)
    requires p <= |lines| && p <= q <= ChunkEnd(lines, p, endTag)
    ensures q == ChunkEnd(lines, p, endTag) <==> q == |lines| || lines[q] == "" || endTag(lines[q])
  {
    var k := ChunkEnd(lines, p, endTag);
    if q < k {
      assert lines[q] != "" && !endTag(lines[q]);
    }
  }

  /** One more line joins on at the end. */
  lemma ConcatSlice(lines: seq<string>, p: nat, q: nat)
    requires p <= q < |lines|
    ensures Concat(lines[p..q + 1]) == Concat(lines[p..q]) + lines[q]
  {
    assert lines[p..q + 1][..q - p] == lines[p..q];
  }

  /** The switch type the loader records: Cisco exactly when the lldp neighbour text
      holds Cisco's "Capability codes:" legend, Arista otherwise. */
  function SwitchType(lldp: string): (t: string)
    ensures t == "Cisco" || t == "Arista"
    ensures t == "Cisco" <==> Contains(lldp, "Capability codes:")
  {
    if Contains(lldp, "Capability codes:") then "Cisco" else "Arista"
  }

  /** A text that starts with the legend, or holds it after any prefix, is Cisco's. */
  lemma {:induction false} CiscoLegend(pre: string, rest: string)
    ensures SwitchType(pre + "Capability codes:" + rest) == "Cisco"
    decreases |pre|
  {
    var s := pre + "Capability codes:" + rest;
    if pre == [] {
      assert s[..|"Capability codes:"|] == "Capability codes:";
    } else {
      CiscoLegend(pre[1..], rest);
      assert s[1..] == pre[1..] + "Capability codes:" + rest;
    }
  }
}
