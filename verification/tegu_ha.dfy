/** The failover controller (system/tegu_ha.py). Every shell command it runs (ssh, curl,
    tar, ls, date) is answered by a `Shell` value that maps the command line to its exit
    status and standard output; the local FQDN is a parameter. */
module TeguHa {
  import opened Wrappers
  import opened Strs
  import opened Nums
  import opened HaTime

  const HEARTBEAT_SEC := 5
  const PRI_WAIT_SEC := 5
  /** Defaults of the TEGU_USER, TEGU_PORT and TEGU_ROOT/TEGU_LIBD/TEGU_CKPTD settings. */
  const TEGU_USER := "tegu"
  const TEGU_PORT := "29444"
  const LIBDIR := "/var/lib/tegu"
  const CKPTDIR := LIBDIR + "/chkpt"
  const SSH_PREFIX := "ssh -o StrictHostKeyChecking=no "
  const SYNC_CMD := "/usr/bin/tegu_synch"
  const DEACTIVATE_CMD := "/usr/bin/tegu_standby on;killall tegu; killall tegu_agent"
  const ACTIVATE_CMD := "/usr/bin/tegu_standby off;/usr/bin/start_tegu; /usr/bin/start_tegu_agent"

  /** Exit status and standard output of one shell command line. */
  datatype Exec = Exec(status: int, out: string)
  type Shell = string -> Exec

  /** `ssh_cmd(host)`: the empty prefix runs locally, any other host goes through ssh. */
  function SshCmd(host: string): (r: string)
    ensures r == "" <==> host == ""
    ensures host != "" ==> HasPrefix(r, SSH_PREFIX + TEGU_USER + "@") && r[|r| - 1] == ' '
  {
    if host != "" then SSH_PREFIX + TEGU_USER + "@" + host + " " else ""
  }

  /** Each host gets its own prefix: the command meant for one host never reaches another. */
  lemma SshCmdInjective(a: string, b: string)
    requires SshCmd(a) == SshCmd(b)
    ensures a == b
  {
    if a != "" && b != "" {
      var p := SSH_PREFIX + TEGU_USER + "@";
      assert SshCmd(a)[|p|..|SshCmd(a)| - 1] == a;
      assert SshCmd(b)[|p|..|SshCmd(b)| - 1] == b;
    }
  }

  function SyncCmd(host: string): string { SshCmd(host) + SYNC_CMD }
  function DeactivateCmd(host: string): string { SshCmd(host) + DEACTIVATE_CMD }
  /** `activate_tegu` builds its prefix inline; it is the same text as `ssh_cmd(host)`. */
  function ActivateCmd(host: string): string
  {
    (if host != "" then SSH_PREFIX + TEGU_USER + "@" + host + " " else "") + ACTIVATE_CMD
  }
  function PingCmd(host: string): string
  {
    "curl --noproxy '*' --connect-timeout 3 -s -d \"ping\" http://" + host + ":" + TEGU_PORT
    + "/tegu/api | grep -q -i pong 2>/dev/null"
  }
  function RemoteDateCmd(host: string): string { SshCmd(host) + "/bin/date +%s" }
  const LOCAL_DATE_CMD := "date +%s"
  /** Listing of the newest resmgr_ entry of the newest checkpoint tarball synced from `host`
      (named by the host's short name). */
  function RemoteListCmd(host: string): string
  {
    "tar -t -v --full-time -f $( ls -t " + LIBDIR + "/chkpt_synch." + Split(host, '.')[0]
    + ".*.tgz | head -1 ) | (grep resmgr_ | sort -r -k 4,5 | head -1 ) 2>/dev/null"
  }
  const LOCAL_LIST_CMD := "ls --full-time -tF " + CKPTDIR + "/resmgr_* | grep -v \"\\/\\$\" 2>/dev/null| head -1"

  /** `subprocess.check_call` succeeds: exit status 0. */
  predicate Succeeds(sh: Shell, cmd: string) { sh(cmd).status == 0 }

  function GetCheckpoint(sh: Shell, host: string): bool { Succeeds(sh, SyncCmd(host)) }
  function IsActive(sh: Shell, host: string): bool { Succeeds(sh, PingCmd(host)) }
  function DeactivateTegu(sh: Shell, host: string): bool { Succeeds(sh, DeactivateCmd(host)) }
  function ActivateTegu(sh: Shell, host: string): bool { Succeeds(sh, ActivateCmd(host)) }

  /** The sync, stop and start helpers run locally exactly for the empty host, and the
      commands for distinct hosts are distinct, so each helper's True means exactly that the
      command for that host exited 0. */
  lemma CommandsAddressHost(sh: Shell, a: string, b: string)
    ensures GetCheckpoint(sh, a) <==> sh(SshCmd(a) + SYNC_CMD).status == 0
    ensures ActivateCmd(a) == SshCmd(a) + ACTIVATE_CMD
    ensures a != b ==> SyncCmd(a) != SyncCmd(b) && DeactivateCmd(a) != DeactivateCmd(b)
    ensures a != b ==> ActivateCmd(a) != ActivateCmd(b)
  {
    if a != b {
      if SyncCmd(a) == SyncCmd(b) { AppendCancel(SshCmd(a), SshCmd(b), SYNC_CMD); SshCmdInjective(a, b); }
      if DeactivateCmd(a) == DeactivateCmd(b) { AppendCancel(SshCmd(a), SshCmd(b), DEACTIVATE_CMD); SshCmdInjective(a, b); }
      if ActivateCmd(a) == ActivateCmd(b) { AppendCancel(SshCmd(a), SshCmd(b), ACTIVATE_CMD); SshCmdInjective(a, b); }
    }
  }

  lemma AppendCancel(x: string, y: string, t: string)
    requires x + t == y + t
    ensures x == y
  {
    assert |x| == |y|;
    assert x == (x + t)[..|x|];
  }

  // ---- split-brain comparator ------------------------------------------------------------

  /** The decision rule: the remote node should run iff its checkpoint, moved onto the local
      clock by `skew` (local clock minus remote clock), is newer than ours, or equally new and
      its name sorts before the local FQDN. */
  predicate RemoteWins(tsR: int, tsL: int, skew: int, remote: string, local: string)
  {
    tsR + skew > tsL || (tsR + skew == tsL && Less(remote, local))
  }

  /** Two distinct nodes that see each other's checkpoint with opposite skews reach
      complementary answers: exactly one of them keeps running. */
  lemma Complementary(tA: int, tB: int, skew: int, a: string, b: string)
    requires a != b
    ensures RemoteWins(tB, tA, skew, b, a) != RemoteWins(tA, tB, -skew, a, b)
  {
    LessTrichotomy(a, b);
  }

  /** `should_be_active(host)` as seen from the node whose FQDN is `fqdn`. */
  function ShouldBeActive(sh: Shell, host: string, fqdn: string): (r: Py<bool>)
    ensures !GetCheckpoint(sh, host) ==> r == Returns(false)
    ensures GetCheckpoint(sh, host) && !GetCheckpoint(sh, "") ==> r == Returns(true)
    ensures r == Returns(true) ==> !GetCheckpoint(sh, "") || CompareEvidence(sh, host, fqdn)
    ensures r.Raises? ==> GetCheckpoint(sh, host) && GetCheckpoint(sh, "") && ListingTrouble(sh, host)
  {
    if !GetCheckpoint(sh, host) then Returns(false)
    else if !GetCheckpoint(sh, "") then Returns(true)
    else CompareCheckpoints(sh, host, fqdn)
  }

  /** Both nodes' clocks and checkpoint listings were read and the rule chose the remote. */
  predicate CompareEvidence(sh: Shell, host: string, fqdn: string)
  {
    Succeeds(sh, RemoteDateCmd(host)) && Succeeds(sh, LOCAL_DATE_CMD)
    && Succeeds(sh, RemoteListCmd(host)) && Succeeds(sh, LOCAL_LIST_CMD)
    && PyInt(sh(RemoteDateCmd(host)).out).Some? && PyInt(sh(LOCAL_DATE_CMD).out).Some?
    && sh(RemoteListCmd(host)).out != "" && sh(LOCAL_LIST_CMD).out != ""
    && ExtractDt(sh(RemoteListCmd(host)).out, 3, 4).Returns? && ExtractDt(sh(LOCAL_LIST_CMD).out, 5, 6).Returns?
    && RemoteWins(ExtractDt(sh(RemoteListCmd(host)).out, 3, 4).v, ExtractDt(sh(LOCAL_LIST_CMD).out, 5, 6).v,
                  PyInt(sh(LOCAL_DATE_CMD).out).value - PyInt(sh(RemoteDateCmd(host)).out).value, host, fqdn)
  }

  /** Why the comparison can escape with an exception: a clock that does not read as an
      integer, an empty listing (the undefined name `false`), or a listing with too few
      columns. */
  predicate ListingTrouble(sh: Shell, host: string)
  {
    PyInt(sh(RemoteDateCmd(host)).out).None? || PyInt(sh(LOCAL_DATE_CMD).out).None?
    || sh(RemoteListCmd(host)).out == "" || sh(LOCAL_LIST_CMD).out == ""
    || ExtractDt(sh(RemoteListCmd(host)).out, 3, 4).Raises? || ExtractDt(sh(LOCAL_LIST_CMD).out, 5, 6).Raises?
  }

  /** The `try` block after both syncs. A failing command raises `CalledProcessError`, which
      the handler turns into False; `int()` of a non-number raises `ValueError`, and the empty
      listing case evaluates the undefined `false`; neither is caught. */
  function CompareCheckpoints(sh: Shell, host: string, fqdn: string): (r: Py<bool>)
    ensures r == Returns(true) ==> CompareEvidence(sh, host, fqdn)
    ensures r.Raises? ==> ListingTrouble(sh, host)
  {
    var dr := sh(RemoteDateCmd(host));
    if dr.status != 0 then Returns(false)
    else if PyInt(dr.out).None? then Raises
    else
      var dl := sh(LOCAL_DATE_CMD);
      if dl.status != 0 then Returns(false)
      else if PyInt(dl.out).None? then Raises
      else
        var skew := PyInt(dl.out).value - PyInt(dr.out).value;
        var lr := sh(RemoteListCmd(host));
        if lr.status != 0 then Returns(false)
        else
          var ll := sh(LOCAL_LIST_CMD);
          if ll.status != 0 then Returns(false)
          else if lr.out == "" || ll.out == "" then Raises
          else match (ExtractDt(lr.out, 3, 4), ExtractDt(ll.out, 5, 6))
            case (Returns(tsR), Returns(tsL)) => Returns(RemoteWins(tsR, tsL, skew, host, fqdn))
            case _ => Raises
  }

  /** When every command succeeds and both listings parse, the answer is the decision rule. */
  lemma ShouldBeActiveDecides(sh: Shell, host: string, fqdn: string, cR: int, cL: int, tR: int, tL: int)
    requires GetCheckpoint(sh, host) && GetCheckpoint(sh, "")
    requires Succeeds(sh, RemoteDateCmd(host)) && Succeeds(sh, LOCAL_DATE_CMD)
    requires Succeeds(sh, RemoteListCmd(host)) && Succeeds(sh, LOCAL_LIST_CMD)
    requires PyInt(sh(RemoteDateCmd(host)).out) == Some(cR) && PyInt(sh(LOCAL_DATE_CMD).out) == Some(cL)
    requires sh(RemoteListCmd(host)).out != "" && sh(LOCAL_LIST_CMD).out != ""
    requires ExtractDt(sh(RemoteListCmd(host)).out, 3, 4) == Returns(tR)
    requires ExtractDt(sh(LOCAL_LIST_CMD).out, 5, 6) == Returns(tL)
    ensures ShouldBeActive(sh, host, fqdn) == Returns(RemoteWins(tR, tL, cL - cR, host, fqdn))
  {
  }

  /** An empty checkpoint listing does not yield False: the name `false` is undefined in the
      script, so the comparison escapes with an exception. */
  lemma EmptyListingRaises(sh: Shell, host: string, fqdn: string)
    requires GetCheckpoint(sh, host) && GetCheckpoint(sh, "")
    requires Succeeds(sh, RemoteDateCmd(host)) && Succeeds(sh, LOCAL_DATE_CMD)
    requires Succeeds(sh, RemoteListCmd(host)) && Succeeds(sh, LOCAL_LIST_CMD)
    requires PyInt(sh(RemoteDateCmd(host)).out).Some? && PyInt(sh(LOCAL_DATE_CMD).out).Some?
    requires sh(RemoteListCmd(host)).out == "" || sh(LOCAL_LIST_CMD).out == ""
    ensures ShouldBeActive(sh, host, fqdn) == Raises
  {
  }

  /** A failing clock or listing command (each earlier step having succeeded) keeps the local
      node: the handler for `CalledProcessError` returns False. */
  lemma FailedCommandKeepsSelf(sh: Shell, host: string, fqdn: string)
    requires GetCheckpoint(sh, host) && GetCheckpoint(sh, "")
    requires !Succeeds(sh, RemoteDateCmd(host))
      || (PyInt(sh(RemoteDateCmd(host)).out).Some? && !Succeeds(sh, LOCAL_DATE_CMD))
      || (PyInt(sh(RemoteDateCmd(host)).out).Some? && PyInt(sh(LOCAL_DATE_CMD).out).Some?
          && Succeeds(sh, LOCAL_DATE_CMD) && !Succeeds(sh, RemoteListCmd(host)))
      || (PyInt(sh(RemoteDateCmd(host)).out).Some? && PyInt(sh(LOCAL_DATE_CMD).out).Some?
          && Succeeds(sh, LOCAL_DATE_CMD) && !Succeeds(sh, LOCAL_LIST_CMD))
    ensures ShouldBeActive(sh, host, fqdn) == Returns(false)
  {
  }

  /** The two nodes of a split brain, each asking about the other. Node `a` sees clocks
      `cB` (remote) and `cA` (local) and checkpoints `tB`, `tA`; node `b` sees the mirror
      image. Their answers are complementary: exactly one of them stops. */
  lemma SplitBrainResolves(shA: Shell, shB: Shell, a: string, b: string, cA: int, cB: int, tA: int, tB: int)
    requires a != b
    requires GetCheckpoint(shA, b) && GetCheckpoint(shA, "") && GetCheckpoint(shB, a) && GetCheckpoint(shB, "")
    requires Succeeds(shA, RemoteDateCmd(b)) && Succeeds(shA, LOCAL_DATE_CMD)
    requires Succeeds(shA, RemoteListCmd(b)) && Succeeds(shA, LOCAL_LIST_CMD)
    requires Succeeds(shB, RemoteDateCmd(a)) && Succeeds(shB, LOCAL_DATE_CMD)
    requires Succeeds(shB, RemoteListCmd(a)) && Succeeds(shB, LOCAL_LIST_CMD)
    requires PyInt(shA(RemoteDateCmd(b)).out) == Some(cB) && PyInt(shA(LOCAL_DATE_CMD).out) == Some(cA)
    requires PyInt(shB(RemoteDateCmd(a)).out) == Some(cA) && PyInt(shB(LOCAL_DATE_CMD).out) == Some(cB)
    requires shA(RemoteListCmd(b)).out != "" && shA(LOCAL_LIST_CMD).out != ""
    requires shB(RemoteListCmd(a)).out != "" && shB(LOCAL_LIST_CMD).out != ""
    requires ExtractDt(shA(RemoteListCmd(b)).out, 3, 4) == Returns(tB) && ExtractDt(shA(LOCAL_LIST_CMD).out, 5, 6) == Returns(tA)
    requires ExtractDt(shB(RemoteListCmd(a)).out, 3, 4) == Returns(tA) && ExtractDt(shB(LOCAL_LIST_CMD).out, 5, 6) == Returns(tB)
    ensures ShouldBeActive(shA, b, a).Returns? && ShouldBeActive(shB, a, b).Returns?
    ensures ShouldBeActive(shA, b, a).v != ShouldBeActive(shB, a, b).v
  {
    ShouldBeActiveDecides(shA, b, a, cB, cA, tB, tA);
    ShouldBeActiveDecides(shB, a, b, cA, cB, tA, tB);
    Complementary(tA, tB, cA - cB, a, b);
    assert cB - cA == -(cA - cB);
  }

  // ---- startup ---------------------------------------------------------------------------

  datatype Start = Started(priority: nat, standby: seq<string>) | Exit(code: int)

  /** The standby file's lines with surrounding whitespace stripped. */
  function Entries(lines: seq<string>): (r: seq<string>)
    ensures |r| == |lines| && forall i :: 0 <= i < |lines| ==> r[i] == Strip(lines[i])
  {
    if |lines| == 0 then [] else Entries(lines[..|lines| - 1]) + [Strip(lines[|lines| - 1])]
  }

  /** `main`: the priority is the position of the local FQDN in the standby list, and that
      first occurrence is removed from the list; an FQDN missing from the list exits with
      status 1. */
  method Startup(lines: seq<string>, fqdn: string) returns (r: Start)
    ensures r.Exit? <==> fqdn !in Entries(lines)
    ensures r.Exit? ==> r.code == 1
    ensures r.Started? ==>
              && r.priority < |lines| && Entries(lines)[r.priority] == fqdn
              && fqdn !in Entries(lines)[..r.priority]
              && r.standby == Entries(lines)[..r.priority] + Entries(lines)[r.priority + 1..]
  {
    var standby := ReadStandby(lines);
    var k := PositionOf(standby, fqdn);
    if k == |standby| {
      assert standby[..k] == standby;
      return Exit(1);
    }
    r := Started(k, standby[..k] + standby[k + 1..]);
  }

  /** `[l.strip() for l in open(STDBY_LIST)]`. */
  method ReadStandby(lines: seq<string>) returns (standby: seq<string>)
    ensures standby == Entries(lines)
  {
    standby := [];
    var i := 0;
    while i < |lines|
      invariant 0 <= i <= |lines|
      invariant standby == Entries(lines)[..i]
    {
      standby := standby + [Strip(lines[i])];
      i := i + 1;
    }
    assert Entries(lines)[..i] == Entries(lines);
  }

  /** `list.index`: the first position holding `x`, or the length when there is none. */
  method PositionOf(xs: seq<string>, x: string) returns (k: nat)
    ensures k <= |xs| && x !in xs[..k]
    ensures k < |xs| ==> xs[k] == x
  {
    k := 0;
    while k < |xs| && xs[k] != x
      invariant 0 <= k <= |xs|
      invariant x !in xs[..k]
    {
      assert xs[..k + 1] == xs[..k] + [xs[k]];
      k := k + 1;
    }
  }

  // ---- the heartbeat cycle ---------------------------------------------------------------

  /** What a cycle does besides querying: comparing with a peer, stopping tegu on a host
      ("" is the local node) or starting it locally. */
  datatype Event = Compared(host: string) | Stopped(host: string) | Started_

  /** State of the peer loop: whether this node is still active, whether any node is, the
      events so far, and whether an exception escaped (which ends the script). */
  datatype Scan = Scan(iAmActive: bool, anyActive: bool, events: seq<Event>, crashed: bool)

  /** The body of the `for host in standby_list` loop for one host. */
  function VisitPeer(s: Scan, host: string, thisNode: string, sh: Shell, fqdn: string): (r: Scan)
    requires !s.crashed
    ensures r.anyActive ==> s.anyActive || IsActive(sh, host)
    ensures !s.iAmActive ==> r == s.(anyActive := s.anyActive || (host != thisNode && IsActive(sh, host)))
  {
    if host == thisNode then s
    else
      var hostActive := IsActive(sh, host);
      if s.iAmActive && hostActive then
        match ShouldBeActive(sh, host, fqdn)
        case Raises => s.(events := s.events + [Compared(host)], crashed := true)
        case Returns(true) => Scan(false, true, s.events + [Compared(host), Stopped("")], false)
        case Returns(false) => s.(events := s.events + [Compared(host), Stopped(host)])
      else s.(anyActive := s.anyActive || hostActive)
  }

  /** The peer loop over `peers` starting from `s`, stopping at an escaped exception. */
  function ScanPeers(s: Scan, peers: seq<string>, thisNode: string, sh: Shell, fqdn: string): Scan
    decreases |peers|
  {
    if s.crashed || |peers| == 0 then s
    else ScanPeers(VisitPeer(s, peers[0], thisNode, sh, fqdn), peers[1..], thisNode, sh, fqdn)
  }

  /** The decision after the peer loop: (new priority_wait, start tegu here?). */
  function AfterScan(priorityWait: bool, priority: nat, anyActive: bool): (r: (bool, bool))
    ensures anyActive ==> r == (priorityWait, false)
    ensures !anyActive && (priorityWait || priority == 0) ==> r == (false, true)
    ensures !anyActive && !priorityWait && priority > 0 ==> r == (true, false)
  {
    if anyActive then (priorityWait, false)
    else if priorityWait || priority == 0 then (false, true)
    else (true, false)
  }

  /** Seconds slept at the top of a cycle. */
  function SleepFor(priorityWait: bool, priority: nat): int
  {
    if priorityWait then PRI_WAIT_SEC * priority else HEARTBEAT_SEC
  }

  /** Result of one whole cycle from the given `priority_wait`: seconds slept, events, whether
      the script died, and the next `priority_wait`. */
  datatype Cycle = Cycle(sleep: int, events: seq<Event>, crashed: bool, priorityWait: bool)

  function CycleSpec(priorityWait: bool, priority: nat, standby: seq<string>, thisNode: string,
                     sh: Shell, fqdn: string): Cycle
  {
    var self := IsActive(sh, "localhost");
    var s := ScanPeers(Scan(self, self, [], false), standby, thisNode, sh, fqdn);
    if s.crashed then Cycle(SleepFor(priorityWait, priority), s.events, true, priorityWait)
    else
      var (pw, start) := AfterScan(priorityWait, priority, s.anyActive);
      Cycle(SleepFor(priorityWait, priority), s.events + (if start then [Started_] else []), false, pw)
  }

  /** The controller's state between heartbeats: `main_loop`'s arguments and `priority_wait`. */
  class Controller {
    const standby: seq<string>
    const thisNode: string
    const priority: nat
    var priorityWait: bool

    constructor (standby: seq<string>, thisNode: string, priority: nat)
      ensures this.standby == standby && this.thisNode == thisNode && this.priority == priority
      ensures !priorityWait
    {
      this.standby := standby;
      this.thisNode := thisNode;
      this.priority := priority;
      priorityWait := false;
    }

    /** One pass of the `while True` loop of `main_loop`. */
    method Heartbeat(sh: Shell, fqdn: string) returns (sleep: int, events: seq<Event>, crashed: bool)
      modifies this
      ensures CycleSpec(old(priorityWait), priority, standby, thisNode, sh, fqdn)
        == Cycle(sleep, events, crashed, priorityWait)
    {
      if !priorityWait {
        sleep := HEARTBEAT_SEC;
      } else {
        sleep := PRI_WAIT_SEC * priority;
      }
      var iAmActive := IsActive(sh, "localhost");
      var anyActive := iAmActive;
      events := [];
      crashed := false;
      var i := 0;
      while i < |standby|
        invariant 0 <= i <= |standby|
        invariant !crashed
        invariant ScanPeers(Scan(iAmActive, anyActive, events, false), standby[i..], thisNode, sh, fqdn)
          == ScanPeers(Scan(IsActive(sh, "localhost"), IsActive(sh, "localhost"), [], false), standby, thisNode, sh, fqdn)
      {
        var host := standby[i];
        assert standby[i..][1..] == standby[i + 1..];
        ghost var before := Scan(iAmActive, anyActive, events, false);
        if host != thisNode {
          var hostActive := IsActive(sh, host);
          if iAmActive && hostActive {
            var decision := ShouldBeActive(sh, host, fqdn);
            events := events + [Compared(host)];
            if decision.Raises? {
              crashed := true;
              return;
            }
            hostActive := decision.v;
            if hostActive {
              events := events + [Stopped("")];
              iAmActive := false;
            } else {
              events := events + [Stopped(host)];
            }
          }
          anyActive := anyActive || hostActive;
        }
        assert VisitPeer(before, host, thisNode, sh, fqdn) == Scan(iAmActive, anyActive, events, false);
        i := i + 1;
      }
      assert standby[i..] == [];
      if !anyActive {
        if priorityWait || priority == 0 {
          priorityWait := false;
          events := events + [Started_];
        } else {
          priorityWait := true;
        }
      }
    }
  }

  // ---- properties of the cycle -----------------------------------------------------------

  /** Removing the local entry from the list changes nothing: the loop skips it. */
  lemma {:induction false} ScanSkipsSelf(s: Scan, peers: seq<string>, thisNode: string, sh: Shell, fqdn: string)
    ensures ScanPeers(s, peers, thisNode, sh, fqdn) == ScanPeers(s, Without(peers, thisNode), thisNode, sh, fqdn)
    decreases |peers|
  {
    if !s.crashed && |peers| > 0 {
      ScanSkipsSelf(VisitPeer(s, peers[0], thisNode, sh, fqdn), peers[1..], thisNode, sh, fqdn);
      if peers[0] == thisNode {
        ScanSkipsSelf(s, peers[1..], thisNode, sh, fqdn);
      }
    }
  }

  function Without(peers: seq<string>, x: string): (r: seq<string>)
    ensures x !in r
  {
    if |peers| == 0 then []
    else if peers[0] == x then Without(peers[1..], x)
    else [peers[0]] + Without(peers[1..], x)
  }

  /** Some peer other than the local node answers the ping. */
  predicate SomePeerActive(peers: seq<string>, thisNode: string, sh: Shell)
  {
    |peers| > 0 && ((peers[0] != thisNode && IsActive(sh, peers[0])) || SomePeerActive(peers[1..], thisNode, sh))
  }

  /** Once this node is not active, the rest of the loop compares nothing and stops nothing;
      it only records whether some peer is active. */
  lemma {:induction false} PassiveScan(s: Scan, peers: seq<string>, thisNode: string, sh: Shell, fqdn: string)
    requires !s.iAmActive && !s.crashed
    ensures ScanPeers(s, peers, thisNode, sh, fqdn)
      == s.(anyActive := s.anyActive || SomePeerActive(peers, thisNode, sh))
    decreases |peers|
  {
    if |peers| > 0 {
      var t := VisitPeer(s, peers[0], thisNode, sh, fqdn);
      PassiveScan(t, peers[1..], thisNode, sh, fqdn);
    }
  }

  /** With exactly one node running (this one with no active peer, or this one idle) a cycle
      neither compares, stops nor starts anything and leaves `priority_wait` alone. */
  lemma OneActiveIsQuiet(priorityWait: bool, priority: nat, standby: seq<string>, thisNode: string, sh: Shell, fqdn: string)
    requires IsActive(sh, "localhost") != SomePeerActive(standby, thisNode, sh)
    requires IsActive(sh, "localhost") ==> !SomePeerActive(standby, thisNode, sh)
    ensures var c := CycleSpec(priorityWait, priority, standby, thisNode, sh, fqdn);
      c.events == [] && !c.crashed && c.priorityWait == priorityWait
      && c.sleep == SleepFor(priorityWait, priority)
  {
    var self := IsActive(sh, "localhost");
    if self {
      QuietWhenPeersIdle(Scan(true, true, [], false), standby, thisNode, sh, fqdn);
    } else {
      PassiveScan(Scan(false, false, [], false), standby, thisNode, sh, fqdn);
    }
  }

  /** An active node whose peers are all idle runs through the loop without comparing. */
  lemma {:induction false} QuietWhenPeersIdle(s: Scan, peers: seq<string>, thisNode: string, sh: Shell, fqdn: string)
    requires !SomePeerActive(peers, thisNode, sh) && !s.crashed
    ensures ScanPeers(s, peers, thisNode, sh, fqdn) == s
    decreases |peers|
  {
    if |peers| > 0 {
      QuietWhenPeersIdle(VisitPeer(s, peers[0], thisNode, sh, fqdn), peers[1..], thisNode, sh, fqdn);
    }
  }

  /** With nothing running anywhere, the node of priority 0 starts tegu at once; any other node
      first sets `priority_wait` and starts on the following cycle, after sleeping
      PRI_WAIT_SEC * priority seconds, if nothing has come up meanwhile. */
  lemma PriorityBackoff(priority: nat, standby: seq<string>, thisNode: string, sh1: Shell, sh2: Shell, fqdn: string)
    requires !IsActive(sh1, "localhost") && !SomePeerActive(standby, thisNode, sh1)
    requires !IsActive(sh2, "localhost") && !SomePeerActive(standby, thisNode, sh2)
    ensures var c1 := CycleSpec(false, priority, standby, thisNode, sh1, fqdn);
      c1.sleep == HEARTBEAT_SEC && !c1.crashed
      && (priority == 0 ==> c1.events == [Started_] && !c1.priorityWait)
      && (priority > 0 ==> c1.events == [] && c1.priorityWait)
    ensures priority > 0 ==>
      var c2 := CycleSpec(true, priority, standby, thisNode, sh2, fqdn);
      c2.sleep == PRI_WAIT_SEC * priority && c2.events == [Started_] && !c2.priorityWait
  {
    PassiveScan(Scan(false, false, [], false), standby, thisNode, sh1, fqdn);
    PassiveScan(Scan(false, false, [], false), standby, thisNode, sh2, fqdn);
  }

  /** Conflict resolution with the first active peer while this node is active: the peer is
      compared; if it wins, this node stops itself and is passive for the rest of the loop,
      otherwise the peer is stopped. */
  lemma ResolveConflict(s: Scan, host: string, thisNode: string, sh: Shell, fqdn: string)
    requires s.iAmActive && !s.crashed && host != thisNode && IsActive(sh, host)
    ensures ShouldBeActive(sh, host, fqdn) == Returns(true) ==>
      VisitPeer(s, host, thisNode, sh, fqdn) == Scan(false, true, s.events + [Compared(host), Stopped("")], false)
    ensures ShouldBeActive(sh, host, fqdn) == Returns(false) ==>
      VisitPeer(s, host, thisNode, sh, fqdn) == s.(events := s.events + [Compared(host), Stopped(host)])
    ensures ShouldBeActive(sh, host, fqdn) == Raises ==> VisitPeer(s, host, thisNode, sh, fqdn).crashed
  {
  }
}
