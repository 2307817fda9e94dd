# tegu core, modelled in Dafny

Tegu reserves bandwidth between hosts of an OpenStack cloud. It does this by pushing flow-mods
and queues to the switches. This project models the sequential logic of its core:

- **Failover controller** (`system/tegu_ha.py`, modules `TeguHa` and `HaTime`). This covers:
  - startup, which finds this node's priority in the standby list;
  - one heartbeat cycle of the main loop, including the priority wait;
  - the split-brain comparator, which syncs the checkpoints, estimates clock skew and
    compares checkpoint timestamps with a host-name tie-break;
  - the checkpoint timestamp parser.

  Every shell command is answered by a `Shell` value that gives its exit status and output.
  The central lemma is the comparator's symmetry: two nodes with opposite skews and distinct
  names reach complementary decisions.
- **Reservations** (`gizmos/pledge.go`, module `Pledges`). A reservation is a class whose
  setters update it in place. The model covers its time-window predicates, its checkpoint
  record and the decoding of that record.
- **Reservation inventory** (`managers/res_mgr.go`, `ResMgr`): the cache with add, get and
  delete, the cookie rules, pausing, the push selection, the checkpoint purge and the reload.
- **Token helpers** (`gizmos/tools.go`, `Tools`): windows, host pairs and token maps.
- **Switch graph** (`gizmos/switch.go`, `Switches`):
  - switches with a growable link array and a set of hosts;
  - the breadth-first `Path_to` search over a 4096-slot fifo;
  - the depth-first `All_paths_to` search, with its link de-duplication.
- **Managers**, each a module named after its file:
  - `Network`: configuration, the fence cache, the queue map, endpoint names, the link table
    and the bandwidth arithmetic.
  - `MirrorApi`: mirror names, times, VLANs, options, port grouping and delete status.
  - `Osif` and `OsifProj`: token and project translation, VM lookup and gateways.
  - `FqMgr`: flow-mod option strings, host fan-out and the ingress/egress DSCP translation.
  - `HttpApi`: the authorisation table, reservation names, deletion arguments and the
    bookkeeping over request records.
  - `Agent`: the agent registry, senders and the shifted DSCP list.
  - `Events`: the event payload conversion and the endpoint event dispatch.
- **Topology generator** (`system/toponet.py`, modules `Toponet` and `TopoWalk`):
  - port and host-name normalisation;
  - the link text;
  - the lldpctl dump parser;
  - the chunk reader and the switch type test;
  - the breadth-first topology walk.

Effects are modelled as values:

- Clocks are a `now` parameter, and sleeps are outputs.
- Channel sends and agent writes are returned messages.
- OpenStack answers and link capacity are oracle parameters.

Several behaviours of the code are kept as written:

- The undefined `false` at system/tegu_ha.py:164 raises.
- The headroom factor defaults to 1.
- `push_reservations` returns the number of pledges that were already pushed.
- The mirror group-rename loop changes nothing.
- The shadowed `err` in `All_paths_to` leaves the error nil when a link lacks capacity.
- The queue JSON of a flow-mod is sent twice.
- `Path_to` tests `pop > len(fifo)` when it wraps its fifo indices.

Helper modules:

- `Wrappers`: Option and Result.
- `Strs`: splitting, joining, searching and ordering strings.
- `Nums`: decimal text, the `clike` parsers and Go's `strconv.ParseInt`.

## Model

| member | source | states |
|---|---|---|
| TeguHa.SshCmd | system/tegu_ha.py:91-95 | the ssh prefix is empty exactly for the empty host; any other host gets `ssh ... tegu@host ` ending in a space |
| TeguHa.SshCmdInjective | system/tegu_ha.py:91-95 | distinct hosts get distinct prefixes, so a command meant for one host never runs on another |
| TeguHa.CommandsAddressHost | system/tegu_ha.py:97-211 | get_checkpoint is true exactly when the sync command for that host exits 0; activate_tegu's inline prefix equals ssh_cmd; sync, stop and start commands for distinct hosts differ |
| TeguHa.Complementary | system/tegu_ha.py:169-170 | two distinct nodes applying the newer-checkpoint-or-smaller-name rule to each other with opposite skews reach opposite answers |
| TeguHa.ShouldBeActive | system/tegu_ha.py:126-175 | no remote checkpoint gives False; a remote but no local checkpoint gives True; True otherwise only with both clocks and listings read and the rule choosing the remote; an escaped exception only from a bad clock or listing |
| TeguHa.CompareCheckpoints | system/tegu_ha.py:150-175 | inside the try block, True only when the rule chose the remote; an uncaught exception only from an unparsable clock, an empty listing or a short listing |
| TeguHa.ShouldBeActiveDecides | system/tegu_ha.py:150-170 | with every command succeeding and both listings parsed, the answer is exactly the rule applied to the skew `local - remote` |
| TeguHa.EmptyListingRaises | system/tegu_ha.py:162-164 | an empty checkpoint listing does not answer False: the undefined name `false` escapes as an exception |
| TeguHa.FailedCommandKeepsSelf | system/tegu_ha.py:150-175 | a failing clock or listing command answers False (the CalledProcessError handler) |
| TeguHa.SplitBrainResolves | system/tegu_ha.py:126-175 | two active nodes asking about each other with consistent clocks and checkpoints give complementary answers: exactly one stops |
| TeguHa.Entries | system/tegu_ha.py:265 | the standby list keeps one entry per line, each stripped of surrounding whitespace |
| TeguHa.Startup | system/tegu_ha.py:259-276 | a missing FQDN exits with status 1; otherwise the priority is the index of its first occurrence and exactly that entry is removed from the list |
| TeguHa.VisitPeer | system/tegu_ha.py:228-248 | one peer of the loop: any_active only grows by an active peer; a passive node only records whether the peer (other than itself) is active |
| TeguHa.AfterScan | system/tegu_ha.py:250-256 | with a tegu active nothing starts; with none, priority 0 or a pending wait starts here and clears the wait; otherwise the wait is set |
| TeguHa.Controller.Heartbeat | system/tegu_ha.py:213-257 | one pass of the heartbeat loop: the sleep, the compare/stop/start events, the crash and the new priority_wait are those of the cycle specification |
| TeguHa.ScanSkipsSelf | system/tegu_ha.py:228-230 | the loop's own-node skip makes removing the local entry from the list irrelevant |
| TeguHa.PassiveScan | system/tegu_ha.py:228-248 | once this node is passive the rest of the loop compares and stops nothing and only records whether some peer is active |
| TeguHa.OneActiveIsQuiet | system/tegu_ha.py:213-257 | with exactly one node running, a cycle compares, stops and starts nothing and leaves priority_wait alone |
| TeguHa.QuietWhenPeersIdle | system/tegu_ha.py:228-248 | an active node whose peers are all idle passes through the loop unchanged |
| TeguHa.PriorityBackoff | system/tegu_ha.py:216-256 | with nothing running, priority 0 starts at once; any other priority sets priority_wait, then sleeps PRI_WAIT_SEC times its priority and starts on the next cycle if nothing came up |
| TeguHa.ResolveConflict | system/tegu_ha.py:234-245 | in a split brain the peer is compared; if it wins this node stops itself and turns passive, otherwise the peer is stopped; an escaped exception ends the cycle |
| HaTime.ParseStamp | system/tegu_ha.py:118 | a stamp parsed against `%Y-%m-%d %H:%M:%S` is a valid calendar date with hour at most 23, minute at most 59 and second at most 61 |
| HaTime.ExtractDt | system/tegu_ha.py:108-124 | an exception escapes exactly when column c1 or c2 is missing; otherwise the result is 0 when the date column and the time column cut at its first '.' do not parse, 0 for a year from 100 to 1899 that `mktime` refuses, the epoch seconds for a year from 1900, and the epoch seconds of the two-digit reading for a year below 100 |
| HaTime.ParseStampRoundTrip | system/tegu_ha.py:118 | every valid stamp with a four-digit year and no leap second, printed in the pattern, parses back to itself |
| HaTime.DateRoundTrip | system/tegu_ha.py:118 | a printed date splits at its dashes into three digit runs that read back as year, month and day |
| HaTime.TimeRoundTrip | system/tegu_ha.py:118 | a printed time splits at its colons into three digit runs that read back as hour, minute and second |
| HaTime.ExtractDtOfListing | system/tegu_ha.py:108-119 | a listing whose date and time columns hold a printed stamp from 1900 on, with any fraction after the seconds, extracts to that stamp's epoch seconds |
| HaTime.ExtractDtBefore1900 | system/tegu_ha.py:108-122 | a listing dated in the years 1000 to 1899 extracts to 0, because `mktime` raises and the handler returns 0 |
| HaTime.MkYear | system/tegu_ha.py:119 | `mktime` refuses exactly the years 100 to 1899; any other year becomes one from 1900 on, ending in the same two digits |
| HaTime.MkTime | system/tegu_ha.py:119 | no timestamp exactly for the years 100 to 1899; from 1900 the epoch seconds of the stamp; below 100 the epoch seconds of the stamp moved to 19xx or 20xx |
| HaTime.DayNumberMono | system/tegu_ha.py:119 | a later calendar day has a larger day number |
| HaTime.EpochMonotone | system/tegu_ha.py:119 | a later stamp gives strictly larger epoch seconds, so among stamps from 1900 on the most recent checkpoint wins the comparison |
| Pledges.MkPledge | gizmos/pledge.go:73-120 | an error and no pledge exactly when the expiry is not in the future or host2 is missing or "any"; otherwise a fresh, unpushed pledge with the given values and the commence time raised to now, neither expired nor active |
| Pledges.Pledge.FromJson | gizmos/pledge.go:136-158 | the pledge takes the decoded record exactly when the JSON decodes, exactly so when every string key is present and with a missing host, id or user key held as ""; on an error it is untouched |
| Pledges.Pledge.SetQid | gizmos/pledge.go:160-165 | the queue id becomes the given one |
| Pledges.Pledge.SetPathList | gizmos/pledge.go:167-174 | the path list becomes the given one |
| Pledges.Pledge.Pause | managers/res_mgr.go:359 | the pledge is paused, and stays pushed only when it was pushed and no reset was asked |
| Pledges.Pledge.Resume | managers/res_mgr.go:368 | the pledge is no longer paused, and stays pushed only when it was pushed and no reset was asked |
| Pledges.Pledge.SetExpiry | managers/res_mgr.go:536 | the expiry becomes the given time |
| Pledges.SetPushed | gizmos/pledge.go:263-270 | a non-nil pledge is marked pushed |
| Pledges.ResetPushed | gizmos/pledge.go:272-279 | a non-nil pledge is marked not pushed |
| Pledges.IsPushed | gizmos/pledge.go:281-291 | a nil pledge is never pushed |
| Pledges.IsExpired | gizmos/pledge.go:293-302 | an expired pledge is not active |
| Pledges.IsPending | gizmos/pledge.go:304-313 | a pending pledge exists and is neither active nor (for a well-ordered pledge) expired |
| Pledges.IsActive | gizmos/pledge.go:315-325 | active means strictly between commence and expiry; a pledge is not active at its commence second |
| Pledges.IsActiveSoon | gizmos/pledge.go:327-338 | active-soon implies not active now and commencing within the window |
| Pledges.ConcludedRecently | gizmos/pledge.go:347-359 | concluded-recently implies expired no longer than the window ago |
| Pledges.CommencedRecently | gizmos/pledge.go:361-371 | commenced-recently implies neither expired nor pending |
| Pledges.IsExtinct | managers/res_mgr.go:390 | with a non-negative window an extinct pledge is expired |
| Pledges.GetBandw | gizmos/pledge.go:384-393 | the total bandwidth is the sum of the in and out amounts |
| Pledges.StateNamesDiffer | gizmos/pledge.go:176-241 | the string and JSON renderings disagree on the state exactly at the expiry second; elsewhere JSON says EXPIRED exactly for an expired pledge |
| Pledges.RecordOf | gizmos/pledge.go:249-259 | a checkpoint record holds exactly the nine saved keys and no dscp |
| Pledges.ToChkpt | gizmos/pledge.go:249-259 | "expired" exactly for an expired (or nil) pledge, a nil queue id otherwise is a fault, and any other pledge gives its record |
| Pledges.ChkptRoundTrip | gizmos/pledge.go:249-259 | decoding the checkpoint record of a pledge with every string field set gives back the pledge with its dscp reset to 0 |
| Pledges.Unmarshal | gizmos/pledge.go:136-141 | decoding succeeds exactly for a well-typed object, and the record has every string pointer set exactly when the object has every string key |
| Pledges.StrField | gizmos/pledge.go:52-63 | a string pointer is set exactly when its key holds a string |
| Pledges.Held | gizmos/pledge.go:143-152 | a pledge holds a complete record as it is, and otherwise differs from it only in the nil strings it holds as "" |
| Tools.StartEnd | gizmos/tools.go:45-71 | an empty token is a fault (the slice panics); otherwise the end is never before the start, a `ts1-ts2` start is at least now, and every other form starts now |
| Tools.StartEndRange | gizmos/tools.go:52-68 | `a-b` gives start max(a, now) and end at least that start |
| Tools.StartEndDuration | gizmos/tools.go:48-50 | `+n` gives the window from now to now + n |
| Tools.StartEndBare | gizmos/tools.go:60-68 | a bare timestamp starts now and ends at the later of it and now |
| Tools.HostPair | gizmos/tools.go:77-95 | a comma after the first character splits there (the first name has no comma); else a dash after the first character splits there; else the token pairs with "any" |
| Tools.HostPairComma | gizmos/tools.go:79-82 | `h1,h2` gives back h1 and h2 whenever h1 is non-empty and comma-free |
| Tools.HostPairDash | gizmos/tools.go:84-87 | `h1-h2` gives back h1 and h2 when neither has a comma and h1 is non-empty and dash-free |
| Tools.Toks2Map | gizmos/tools.go:101-113 | the loop's map is the fold of the key=value tokens in order |
| Tools.PairsKeys | gizmos/tools.go:101-113 | a key is in the map exactly when some key=value token names it |
| Tools.PairsLast | gizmos/tools.go:104-109 | a repeated key keeps the value of its last token |
| Tools.PairsKeep | gizmos/tools.go:104-109 | an entry no token names keeps its value |
| Tools.LeadPairs | gizmos/tools.go:137-145 | the run of leading tokens holding '=' stops at the first token without one |
| Tools.LeadingPairs | gizmos/tools.go:137-145 | the first loop maps exactly the leading key=value run and stops at its end |
| Tools.MixToks2Map | gizmos/tools.go:130-157 | the result is the leading pairs followed by the names bound in order to the following tokens |
| Tools.MixMapBinds | gizmos/tools.go:147-154 | each name (last occurrence among those bound) maps to the positional token after the leading pairs at its position |
| Tools.MixMapAbsent | gizmos/tools.go:130-157 | a name that is neither bound nor a leading key is absent |
| Tools.BindLast | gizmos/tools.go:147-154 | binding names in order leaves each name with the value of its last binding |
| Tools.BindKeep | gizmos/tools.go:147-154 | binding never touches a key outside the names |
| Switches.Switch.constructor | gizmos/switch.go:66-89 | a new switch has no links, hosts or ports, its id is the given id cut at the first '@', and a link array of one chunk |
| Switches.Switch.AddLink | gizmos/switch.go:103-128 | the link is appended to the link list; a full array is replaced by a fresh one a chunk larger; nothing else changes |
| Switches.Switch.GetLink | gizmos/switch.go:154-163 | an index within the used links gives that link, any other index gives nil |
| Switches.Switch.AddHost | gizmos/switch.go:130-137 | the host is recorded with its vm id and port, replacing an earlier entry |
| Switches.Switch.Follow | gizmos/switch.go:193-214 | the far switch's cost becomes this switch's cost plus the link's cost exactly when it is unvisited and that sum is strictly smaller, and stays put otherwise; a hit means the far switch is unvisited and houses the target or is the target, and a hit or a lowered cost records this switch and the link as its back pointer |
| Switches.Switch.Probe | gizmos/switch.go:183-221 | a found switch is unvisited, is or houses the target and was reached over a link with room; costs never rise and every lowered cost points back over a link with room; without a hit and with no link back to this switch, every unvisited far end of a link with room neither houses nor is the target and costs at most this switch's cost plus that link's cost, and the capacity flag is set exactly when some link lacked room |
| Switches.Switch.Expand | gizmos/switch.go:262-293 | one dequeued switch: a probe hit ends the search; otherwise its unvisited neighbours over roomy links are enqueued, the frontier invariant is kept and the capacity flag records a link without room; when no link of the switch leads back to it, no switch it enqueues houses or is the target |
| Switches.Switch.Visit | gizmos/switch.go:279-297 | a switch dequeued for the first time enqueues its unvisited neighbours over links with room, each the far end of one of its links with room, and becomes visited; an overrun of the queue is reported |
| Switches.Switch.Mark | gizmos/switch.go:297 | the switch is flagged visited and the search's bookkeeping counts it among the seen switches |
| Switches.EnqueueNeighbours | gizmos/switch.go:279-295 | every unvisited neighbour over a link with room is appended to the queue (or the queue overruns), each entry appended is the unvisited far end of one of the switch's links with room, and any link without room sets the flag |
| Switches.Switch.PathTo | gizmos/switch.go:245-302 | a found switch is or houses the target and has a predecessor that reached it over a link with room; costs never rise; without a hit every switch newly visited had all its roomy neighbours visited, and the capacity flag is set exactly when one of them had a link without room; without a hit, and when no link leads back to its own switch, no switch newly visited other than the start houses or is the target (the start itself is never probed) |
| Switches.Switch.Drain | gizmos/switch.go:264-301 | the queue loop: a hit is returned with the switch that reached it; an empty queue leaves the frontier invariant with nothing queued, which gives the closure, capacity and no-target facts of `PathTo` |
| Switches.MarkedUntargeted | gizmos/switch.go:264-301 | once the queue is empty and no link leads back to its own switch, no switch newly visited other than the start houses or is the target |
| Switches.Advance | gizmos/switch.go:265-297 | one turn keeps the frontier: the closure over the marked switches, the capacity flag, and (with no self links) no queued or marked switch other than the start being a target |
| Switches.Switch.ApSearch | gizmos/switch.go:323-351 | the trails appended are exactly those of the depth-first enumeration `Trails` over the links in order (by `TrailsSimple` and `SimpleTrailFound`, exactly the simple trails to a switch housing the target); visited flags are restored on the way back |
| Switches.Switch.WalkLink | gizmos/switch.go:336-345 | following links i.. of this switch appends the trails of each unvisited neighbour in link order |
| Switches.Switch.AllPathsTo | gizmos/switch.go:361-419 | no trail gives the no-paths error; otherwise the end switch is the last trail's and the error is nil; the unique links are listed only when every one has room, and a missing capacity leaves a nil list with no error |
| Switches.TrailsSimple | gizmos/switch.go:323-351 | every trail the search finds continues the walk so far with a trail over existing links that reaches a switch housing the target, enters no switch twice and avoids the switches marked visited |
| Switches.TrailsFromSimple | gizmos/switch.go:336-345 | every trail found through a switch's links from the i-th on starts with one of its links to an unmarked switch and continues simply from there |
| Switches.SimpleTrailFound | gizmos/switch.go:323-351 | every such simple trail to a switch housing the target, avoiding the marked switches, is among the trails the search finds |
| Switches.TrailsFromHas | gizmos/switch.go:336-345 | a trail found through the j-th link is found by the loop over the links started at any earlier index |
| Switches.Flatten | gizmos/switch.go:375-386 | every link of every trail is in the flattened list |
| Switches.DedupKeys | gizmos/switch.go:379-385 | the unique-link map holds every link of the trails, each under its own id |
| Switches.DedupFirst | gizmos/switch.go:381-383 | a link id keeps the first link seen with that id |
| Switches.UniqueLinks | gizmos/switch.go:375-386 | the loops build exactly the first-seen map of the flattened trails |
| Switches.EnterLinks | gizmos/switch.go:378-385 | one trail's links added in order extend the first-seen map |
| Switches.Admit | gizmos/switch.go:389-402 | the list is produced exactly when every unique link has room, and then holds each unique link once |
| Switches.Hosting | gizmos/switch.go:139-145 | the switches housing the target are exactly those with it among their hosts |
| ResMgr.Decode | managers/res_mgr.go:438-439 | a checkpoint line yields a pledge exactly when it is a JSON object that decodes |
| ResMgr.DecodeAll | managers/res_mgr.go:434-439 | one decoded entry per line read |
| ResMgr.StepOfMeaning | managers/res_mgr.go:436-455 | a line is filed exactly when it decodes to a live, complete pledge (hosts, id, queue id and user key set) whose id is not yet present, and it is filed exactly as decoded; it is skipped exactly when it decodes to an expired pledge whose hosts, id and queue id are set (what `To_str` dereferences); it stops the read exactly when a live pledge's id is already present; every other line, a nil pointer included, crashes |
| ResMgr.QidlessCrashes | managers/res_mgr.go:436-446 | a live record saved without a queue id, whose id is not yet present, crashes the load: nothing on the reservation path sets its queue id and `To_chkpt` dereferences it |
| ResMgr.LineFiledAsSaved | managers/res_mgr.go:436-446 | a single live, complete line with a new id loads as exactly that pledge under its id, its saved queue id kept, with no error and no crash |
| ResMgr.LoadAddsLive | managers/res_mgr.go:410-462 | loading keeps what was added, adds only ids not already present, and every pledge it adds is live, complete (its saved queue id set) and filed under its own id |
| ResMgr.RecordStep | gizmos/pledge.go:249-259 | a written checkpoint record of a live pledge whose id is not yet present is read back and filed as the pledge it was written from, with dscp 0 |
| ResMgr.ById | managers/res_mgr.go:478-496 | every pledge given and every earlier entry has an entry in the map by id |
| ResMgr.ReloadRestores | managers/res_mgr.go:377-462 | reloading the records written for distinct live pledges, none already present, adds exactly those pledges by id without error |
| ResMgr.ReadLine | managers/res_mgr.go:436-455 | one line read gives a fresh unpushed pledge and the step that line takes; a filed pledge holds exactly the decoded values |
| ResMgr.PushOne | managers/res_mgr.go:324-345 | an unpushed pledge that is active or active within 15 seconds is pushed when its hosts resolve; the result says whether it was already pushed |
| ResMgr.Inventory.AddRes | managers/res_mgr.go:478-496 | a present id is the "reservation already exists" error with the cache untouched; otherwise the pledge is filed under its id |
| ResMgr.Inventory.GetRes | managers/res_mgr.go:498-523 | a pledge is returned exactly when the name is present and the cookie is the pledge's or the super cookie; otherwise the matching error |
| ResMgr.Inventory.DelRes | managers/res_mgr.go:525-543 | success exactly when the pledge is found and authorised; then its expiry becomes now + 15, otherwise it is untouched; the expiry of every other entry is unchanged |
| ResMgr.Inventory.DelAllRes | managers/res_mgr.go:548-577 | the count is the number of pledges the cookie opens, and exactly those get expiry now + 15 |
| ResMgr.Inventory.PauseOn | managers/res_mgr.go:357-362 | every pledge is paused and marked unpushed |
| ResMgr.Inventory.PauseOff | managers/res_mgr.go:366-371 | every pledge is resumed and marked unpushed |
| ResMgr.Inventory.AnyConcluded | managers/res_mgr.go:120-131 | true exactly when some pledge concluded within the past window |
| ResMgr.Inventory.AnyCommencing | managers/res_mgr.go:136-147 | true exactly when some pledge commenced within the past window or becomes active within the future window |
| ResMgr.Inventory.PushReservations | managers/res_mgr.go:314-350 | every unpushed pledge active now or within 15 seconds is pushed when its hosts resolve, nothing else changes, and the count returned is the number that were already pushed |
| ResMgr.Inventory.WriteChkpt | managers/res_mgr.go:377-404 | without a checkpoint file nothing happens; otherwise every unexpired pledge is written, and the expired ones that are extinct for 120 seconds and pushed are deleted |
| ResMgr.Inventory.LoadLine | managers/res_mgr.go:436-455 | one line: it crashes exactly when its step does, and only a filed pledge changes the cache, which gains it fresh and unpushed under its id; a present id is the exists error and nothing else is an error |
| ResMgr.Inventory.LoadChkpt | managers/res_mgr.go:410-462 | the lines are read in order until a crash or an error, agreeing with the load specification: exactly the accepted pledges are added, unpushed, and earlier entries are untouched |
| ResMgr.Inventory.Res2Json | managers/res_mgr.go:65-83 | the listing holds exactly the pledges that are not expired |
| ResMgr.Inventory.FailedPush | managers/res_mgr.go:106-116 | a present pledge is marked unpushed |
| Network.FindPaths | managers/network.go:186-205 | "all" finds all paths without mlag paths; "shortest" uses neither; every other value (including "mlag") uses mlag paths |
| Network.MkNetCfg | managers/network.go:130-222 | each field is its default unless its key is present, and then is what the key reads as: a negative discount is 0, relaxed is one of the three spellings of true, integers are read by the C-like prefix parser |
| Network.ReadInt | managers/network.go:171-216 | an integer setting is the parsed value when the key is present and the current value otherwise |
| Network.ReadPaths | managers/network.go:181-205 | find_paths, when present, decides both flags; otherwise all_paths only clears the all-paths flag |
| Network.Sanitise | managers/network.go:1168-1175 | afterwards the refresh is at least 15 and the link maximum positive; a value already sane, and every other field, is kept |
| Network.StartLimits | managers/network.go:1156-1162 | a "default" fence exists exactly when a user link capacity is configured (not negative), with that capacity |
| Network.FenceLookup | managers/network.go:367-396 | a known user gets their own fence with the table unchanged; anyone else gets a copy of the default (or of a generic 100% default, which is then stored) under their name (or "nobody"), and no other entry changes |
| Network.FenceStable | managers/network.go:367-396 | looking a user up a second time gives the same fence as the first time |
| Network.FenceCached | managers/network.go:380-384 | with a default present, a lookup caches the user's fence under their name |
| Network.QTokens | managers/network.go:403-419 | no empty token is ever kept |
| Network.EpOnlySubset | managers/network.go:403-419 | the endpoint-only queue tokens are among all the queue tokens |
| Network.AllTokensHas | managers/network.go:429-442 | every kept token of any link's queue list ends up in the map |
| Network.QList2Map | managers/network.go:403-419 | the map gains exactly the kept tokens of the list, each marked 1, and every other entry is unchanged |
| Network.GenQueueMap | managers/network.go:429-455 | the list holds each kept token of all queue lists exactly once, and nothing else |
| Network.JoinMlag | managers/network.go:637-644 | with an mlag name the new link is appended to that group (created if new); without, the groups are unchanged |
| Network.LinkLookup | managers/network.go:618-649 | the link is filed under "ssw-dsw" and returned; all other links are kept; an existing link leaves the mlag groups alone |
| Network.LinkReused | managers/network.go:618-627 | asking again for the same switch pair, with any capacity and mlag, returns the same link and changes nothing |
| Network.Net.constructor | managers/network.go:247-259 | the network starts with the given fences and endpoints and no links or mlag groups |
| Network.Net.GetFence | managers/network.go:367-396 | the fence returned and the new fence table are those of the fence lookup |
| Network.Net.FindLink | managers/network.go:618-649 | the link returned and the new link and mlag tables are those of the link lookup |
| Network.Net.Defrock | managers/network.go:496-530 | a one-character name is a slice panic; "" stays ""; a "!/" name is kept; otherwise the uuid (second '/' token) is returned exactly when it is a known endpoint, else "" |
| Network.Discount | managers/network.go:1365-1380 | no discount keeps the bandwidth; above 100 the amount is cut with a floor of 10; a d% cut of a non-negative bandwidth leaves the (100-d)% share rounded up, and exactly 10 when that share is at most 10 |
| Network.DiscountShare | managers/network.go:1366-1369 | a larger percentage never leaves more, and a percentage cut never raises a bandwidth of 10 or more |
| Network.SetDiscount | managers/network.go:1719-1729 | without data the discount is kept; with data it becomes the parsed value when that is not negative, and 0 when it is |
| Network.HrFactor | managers/network.go:728-736 | the factor is 100 less the headroom for a headroom strictly between 0 and 100, else 1 |
| Network.LinkCapacity | managers/network.go:799-835 | a link offers its capacity (the configured maximum when it states none) times the headroom factor, divided by 100 and rounded down |
| Network.HeadroomShare | managers/network.go:822 | with an h% headroom a link offers exactly (100-h)% of its capacity rounded down, never more than its capacity |
| Network.NoHeadroomHundredth | managers/network.go:728-736 | without a headroom setting a link offers a hundredth of its capacity; the 10 GiB default becomes 107374182 |
| Network.CeilShare | managers/network.go:1366-1369 | what a d% cut leaves of a non-negative bandwidth is the (100-d)% share rounded up, and at most 10 exactly when that share is at most 10 |
| MirrorApi.NextId | managers/http_mirror_api.go:71-79 | the next id is after the last one and not before now: now when the clock has moved on, else last + 1 |
| MirrorApi.MirrorIds.constructor | managers/http_mirror_api.go:68 | the last id starts at 0 |
| MirrorApi.MirrorIds.Generate | managers/http_mirror_api.go:71-79 | the last id advances to the next id and the name is "mir-" followed by it in lower-case hex |
| MirrorApi.HexDigitInjective | managers/http_mirror_api.go:78 | distinct hex digit values print as distinct characters |
| MirrorApi.HexStrInjective | managers/http_mirror_api.go:78 | distinct ids print as distinct hex texts |
| MirrorApi.SuccessiveNamesDiffer | managers/http_mirror_api.go:71-79 | two names generated one after the other are never equal, whatever the clock says |
| MirrorApi.HexStrChars | managers/http_mirror_api.go:78 | a hex text consists only of characters a mirror name may hold |
| MirrorApi.GeneratedNameValid | managers/http_mirror_api.go:71-79 | every generated name passes the mirror name check |
| MirrorApi.ReadSpan | managers/http_mirror_api.go:88-105 | an empty start is now and any other start is its parsed value; an end "+n" is the start plus the parsed n, "unbounded" is the default end time, and any other end is its parsed value; the read fails exactly when the last parse made fails (the code tests "unbounded", not the "+unbounded" of its comment, which reads as "+n" and fails to parse) |
| MirrorApi.CheckSpan | managers/http_mirror_api.go:106-123 | on a parse error the raw times are returned with the error; otherwise the start is raised to now and the result is good exactly when the end is after the start by at least the configured minimum |
| MirrorApi.CheckTimes | managers/http_mirror_api.go:88-125 | an empty end is a slice panic; an accepted span starts no earlier than now, ends after its start, honours the minimum, and an explicit start is kept unless it is in the past; the end is the start plus n for "+n", the default end time for "unbounded" and the parsed value otherwise, and a failed parse of a "+n" or absolute end, or of the start under "unbounded", is reported as a parse error |
| MirrorApi.CheckTimesRelative | managers/http_mirror_api.go:97-99 | no start and end "+n" is the span from now to now + n |
| MirrorApi.CheckTimesUnbounded | managers/http_mirror_api.go:100-101 | no start and end "unbounded" is the span from now to the default end time |
| MirrorApi.BadStartMasked | managers/http_mirror_api.go:93-99 | an unparsable start is forgotten when a "+n" end parses: the error is overwritten and the span becomes now to n |
| MirrorApi.BadStartUnbounded | managers/http_mirror_api.go:93-101 | an unparsable start with an "unbounded" end keeps the parse error |
| MirrorApi.BadStartReadsZero | managers/http_mirror_api.go:95 | an unparsable number reads as 0 with an error |
| MirrorApi.FirstBad | managers/http_mirror_api.go:127-137 | the scan over the list reports an element exactly when some element fails the range test |
| MirrorApi.FirstBadAt | managers/http_mirror_api.go:127-137 | the reported element is the first one that fails the test, and every element before it passes |
| MirrorApi.VlanListErr | managers/http_mirror_api.go:127-137 | the list is accepted exactly when every comma-separated id is in range |
| MirrorApi.NumList | managers/http_mirror_api.go:127-137 | each number is printed as its decimal text |
| MirrorApi.VlanListAccepts | managers/http_mirror_api.go:127-137 | any non-empty list of ids up to 4095, written with commas, is accepted |
| MirrorApi.VlanListLax | managers/http_mirror_api.go:127-137 | an empty list and a non-numeric word are accepted too, because an unparsable id reads as 0 |
| MirrorApi.ValidOptionShape | managers/http_mirror_api.go:145-160 | an option is valid exactly when it is "flowmod" or one of df_default/df_inherit set to true or false |
| MirrorApi.SettingText | managers/http_mirror_api.go:145-160 | each of the four setting texts is a valid option |
| MirrorApi.SettingSplits | managers/http_mirror_api.go:145-160 | every valid option other than flowmod splits on '=' into a known field and a boolean |
| MirrorApi.OptionSplit | managers/http_mirror_api.go:145-160 | a field and value without '=' split back into those two parts |
| MirrorApi.PathName | managers/http_mirror_api.go:166-180 | a name is found only in a five-part path, where it is the fourth part |
| MirrorApi.PathNameOfMirror | managers/http_mirror_api.go:166-180 | the name is read back from "/tegu/mirrors/<name>/" for every name without '/' |
| MirrorApi.MirrorPathText | managers/http_mirror_api.go:166-180 | the mirror path is the '/'-joined parts "", "tegu", "mirrors", name and "" |
| MirrorApi.MirrorPathTail | managers/http_mirror_api.go:166-180 | the tail of a mirror path splits into "mirrors", the name and "" |
| MirrorApi.ValidatePorts | managers/http_mirror_api.go:300-364 | the groups and error are those of grouping the ports one by one and then adding the bad-port group; the final renaming of a lone group changes only a copy, so names keep their index |
| MirrorApi.GroupWf | managers/http_mirror_api.go:300-364 | after grouping, every host's group is named name_k for its own index k, below the counter, and no two hosts share an index |
| MirrorApi.StepWf | managers/http_mirror_api.go:307-343 | one port keeps the grouping well formed |
| MirrorApi.GroupValid | managers/http_mirror_api.go:300-346 | the ports are valid exactly when at least one port resolves to a physical host |
| MirrorApi.GroupBad | managers/http_mirror_api.go:337-343 | the bad ports are exactly the unusable ones, in order |
| MirrorApi.GroupCovers | managers/http_mirror_api.go:307-335 | every usable port's mac is in its host's group, and every mac in a group came from a port of that host |
| MirrorApi.NatStrSuffix | managers/http_mirror_api.go:317 | name_a and name_b are equal only when a and b are |
| MirrorApi.ValidatePortsErr | managers/http_mirror_api.go:344-346 | the error is "No valid ports found." exactly when no port is usable, and there is no other error |
| MirrorApi.ValidatePortsBad | managers/http_mirror_api.go:347-353 | a "_badports_" group exists exactly when some port is unusable; it lists those ports with the "Invalid ports found." error |
| MirrorApi.NoBadportsGroup | managers/http_mirror_api.go:307-335 | no host group is named "_badports_" before the bad ports are added |
| MirrorApi.ValidatePortsCover | managers/http_mirror_api.go:300-364 | every usable port's mac appears in the group of its physical host in the result |
| MirrorApi.ValidatePortsNames | managers/http_mirror_api.go:316-362 | different hosts get different group names, and with one host its group is named name_0 before the final renaming |
| MirrorApi.GroupFilled | managers/http_mirror_api.go:307-335 | every host group holds at least one mac |
| MirrorApi.MirrorDelete | managers/http_mirror_api.go:702-740 | 404 when the mirror is not found, 401 when the cookie or tenant is wrong, otherwise 204 after a delete request and, when the delete succeeds, a checkpoint request |
| Osif.SplitN3 | managers/osif.go:208 | splitting on '/' into at most three parts: one part exactly when there is no '/', the first two parts hold no '/', and the parts joined with '/' give back the text |
| Osif.ValidateToken | managers/osif.go:199-293 | a translation is never returned with an error; a name without a token part is translated exactly when no token is required |
| Osif.ValidateTokenAuthorised | managers/osif.go:230-290 | with a token required, a name is accepted only as token/project/host with a non-empty token that the token lookup vouches for, or marked unvalidated with a leading '!' and then returned as "!id/host"; `Osif.ValidateTokenAccepts` gives the accepted value in every case |
| Osif.ValidateTokenAccepts | managers/osif.go:230-286 | with a token required, token/project/host with a non-empty token gives exactly: for an empty project and a token other than "!", the token's project id and the host when the lookup knows the token and nothing otherwise; for a token starting with '!', "!", the project's id (nothing for an empty project) and the host; otherwise the project's id and the host exactly when the lookup vouches for the project |
| Osif.ValidateTokenTranslates | managers/osif.go:209-266 | without a token required, a host is kept, project/host has its project name translated to its id, and token/project/host becomes id/host |
| Osif.SilentRejection | managers/osif.go:236-244 | token//host with a token the lookup does not know and no diagnostic is refused with no error at all |
| Osif.HaveProject | managers/osif.go:597-610 | true exactly when the second '/'-part is a known project name or id |
| Osif.HasAnyRole | managers/osif.go:329-359 | success exactly when the token is token/project with a non-empty project, its credentials crack and share a role with the list; the result is "user,tenant-id", and a failed crack is reported with its own error appended |
| Osif.SplitHasTwo | managers/osif.go:333-337 | a text holding the separator splits into at least two parts |
| Osif.HasAnyRoleReq | managers/osif.go:897-909 | the answer is true exactly when the request has at least two space-separated pieces and `has_any_role` succeeds on the first two, and then it carries no error; fewer pieces give "bad input data", and a refusal passes on `has_any_role`'s own error |
| Osif.PName2Id | managers/osif.go:925-936 | a known project name gives its id; otherwise a known id is given back as it is, and anything else gives nothing |
| Osif.PName2IdStable | managers/osif.go:925-936 | translating a translated name again gives the same id |
| Osif.RefreshDelay | managers/osif.go:629-661 | the refresh delay is never below 15 seconds, and a configured value of 15 or more is used as it is |
| OsifProj.RefreshErr | managers/osif_proj.go:125-167 | a refresh reports no error exactly when the VM, floating-ip and MAC fetches all succeed (a failed gateway fetch is not reported) |
| OsifProj.RefreshVmAllOrNothing | managers/osif_proj.go:125-175 | the five VM maps are replaced all together from one fetch or not at all, and a refresh never empties a VM, MAC or gateway map that had entries |
| OsifProj.RefreshFloatingIps | managers/osif_proj.go:146-157 | when both floating-ip maps come back non-empty, ip2fip ends up holding the fip2ip map and fip2ip is never replaced |
| OsifProj.Lookup | managers/osif_proj.go:289-293 | a lookup finds a value exactly when the key is present, and the value is the stored one |
| OsifProj.GwScan | managers/osif_proj.go:209-239 | a gateway is returned only when it belongs to the address's project (or either has none) and its cidr holds the address; no gateway means every eligible gateway scanned has a well-formed cidr that misses, and, when the scan order lists every gateway of the map, that no eligible gateway of the map holds the address |
| OsifProj.SussInfo | managers/osif_proj.go:241-304 | without a name and address only what the search found is reported; with both, the id is the one found or else the address's, a missing id or a failing gateway scan panics, and otherwise the gateway is the scan's, the physical host is the id's, the MAC and floating ip are the address's and the gateway map is the project's |
| OsifProj.SussInfoAgrees | managers/osif_proj.go:254-304 | a known VM searched by name, address, id or project/id yields the same report, with its own id, address and the physical host of its id |
| OsifProj.SussAgrees | managers/osif_proj.go:254-282 | a VM is found by its name, by its address, by its id and by project/id, each time with the same name, id and address |
| OsifProj.OsifProject.constructor | managers/osif_proj.go:79-100 | a new project has its name, no fetch yet and empty maps |
| OsifProj.OsifProject.RefreshMaps | managers/osif_proj.go:106-204 | nil credentials are the "creds were nil" error; the reference project and a refresh that lost the race change nothing; otherwise the maps are refreshed, the fetch time is now, and the error and expiry are those of the fetch |
| OsifProj.OsifProject.Install | managers/osif_proj.go:126-204 | the maps become the given ones and the fetch time is now |
| OsifProj.OsifProject.GetInfo | managers/osif_proj.go:309-346 | nil credentials give the creds error and change nothing; fresh maps (under 90 seconds) whose search finds a name answer without a reload, and a panicking search of fresh maps changes nothing; new data is reported exactly when the maps are 90 seconds old or more or the fresh search finds no name, and then the maps are replaced by the refreshed ones stamped with the current time (the reference project "_ref_" is left as it is), the error is the refresh's, and without an error the answer is the search of the new maps, while a failed refresh of stale maps leaves the answer empty |
| OsifProj.OsifProject.FillIp2Mac | managers/osif_proj.go:352-364 | a nil map stays nil; otherwise it gains every ip2mac entry of the project, overriding its own, and keeps its other entries |
| OsifProj.HostinfoTarget | managers/osif_proj.go:374-420 | a search target is produced only for project/host with both parts non-empty and a project that maps to a project and credentials, and is id/host; "!/host" gives nothing |
| OsifProj.HostinfoById | managers/osif_proj.go:392-411 | a request by project id searches for id/host |
| OsifProj.HostinfoByName | managers/osif_proj.go:392-411 | a request by project name, with or without a leading '!', is translated to the project id and searches for id/host |
| FqMgr.NormPri | managers/fq_mgr.go:279-281 | the priority sent is always positive, and a positive priority is kept |
| FqMgr.Translate | managers/fq_mgr.go:310-332 | a given MAC wins; otherwise an IP must translate through the ip2mac map, and the MAC used is its translation |
| FqMgr.Resubs | managers/fq_mgr.go:386-391 | one "-R ,t" option per resub table, in order |
| FqMgr.OutputFlag | managers/fq_mgr.go:374-393 | the output action is always none, normal or drop |
| FqMgr.PerHost | managers/fq_mgr.go:399-410 | one flow-mod per host of the list, in order, each the same but for its host |
| FqMgr.BuildMatch | managers/fq_mgr.go:300-350 | the match options built step by step are those of the match specification, including the silent stop when an IP has no MAC |
| FqMgr.AppendMac | managers/fq_mgr.go:310-336 | a MAC that cannot be found stops the flow-mod; otherwise its option is appended |
| FqMgr.BuildAction | managers/fq_mgr.go:353-396 | the action options built step by step are those of the action specification |
| FqMgr.PickOutput | managers/fq_mgr.go:374-384 | the output chosen is that of the output rule without a resub list |
| FqMgr.AppendResubs | managers/fq_mgr.go:386-391 | the resub options are appended after the options already built |
| FqMgr.ResubsSnoc | managers/fq_mgr.go:386-391 | one more resub table adds its option at the end |
| FqMgr.SendGfmod | managers/fq_mgr.go:273-423 | the flow-mods sent are those of the generic flow-mod specification, and the request's priority is normalised |
| FqMgr.PerHostSnoc | managers/fq_mgr.go:399-410 | one more host adds its flow-mod at the end |
| FqMgr.GfmodSilent | managers/fq_mgr.go:273-336 | nothing is sent for a nil request, an expiry already past, or an IP whose MAC is unknown |
| FqMgr.GfmodFanOut | managers/fq_mgr.go:399-421 | without a switch id every listed host gets one flow-mod, in order; with one, exactly one goes to the reservation's switch; each carries the normalised priority and a non-negative timeout |
| FqMgr.GfmodDscp | managers/fq_mgr.go:346-366 | a DSCP to match is sent, shifted onto the TOS bits, exactly when it is not negative; one to write exactly when it is not negative and differs from the matched one |
| FqMgr.GfmodOutput | managers/fq_mgr.go:374-396 | the output action is last; a resub list forces none and puts its options, in order, just before it |
| FqMgr.GfmodMacs | managers/fq_mgr.go:310-336 | each flow-mod matches the given MAC, or the translated MAC of the IP when none is given |
| FqMgr.AdjustQueuesAgent | managers/fq_mgr.go:116-146 | a nil host list is a nil dereference; otherwise one request per host, each carrying the whole queue list |
| FqMgr.SendFmod | managers/fq_mgr.go:181-245 | at most two flow-mods, and any only when the queue is not intermediate (or all switches are sent to), both IPs have MACs and the expiry is in the future |
| FqMgr.SendFmodNoUdp | managers/fq_mgr.go:215-243 | with a source port the TCP flow-mod is sent twice and the UDP one never |
| FqMgr.DscpPairs | managers/fq_mgr.go:604-642 | one pair per request, in order: the DSCP value it matches and the one it writes |
| FqMgr.Swapped | managers/fq_mgr.go:604-642 | each pair, in order, with its matched and written values exchanged |
| FqMgr.SwappedTwice | managers/fq_mgr.go:604-642 | exchanging twice gives the pairs back, so the inbound and outbound translations are each other's inverse |
| FqMgr.IeReserveInverse | managers/fq_mgr.go:604-642 | across several switches the three inbound translations undo the three outbound ones: each inbound pair is an outbound pair swapped |
| FqMgr.Pairs3 | managers/fq_mgr.go:604-642 | the pairs of three requests are theirs in order |
| FqMgr.IeReserveShape | managers/fq_mgr.go:586-648 | nothing is sent for an intermediate queue unless every switch gets flow-mods; every request resubmits to tables 10 and 0, matches meta 0x00/0x02 and uses br-int for a late-bound port; a single switch sends one request with no DSCP match |
| FqMgr.FqConfig | managers/fq_mgr.go:500-535 | queue checks at least every 5 seconds (default 5), host checks at least 30 apart (default 180), and flow-mods go to every switch exactly when the queue type is set and is not "endpoint" |
| HttpApi.IsLocalhost | managers/http_api.go:176-183 | a sender is local exactly when its address before any ':' is 127.0.0.1 |
| HttpApi.LocalhostForms | managers/http_api.go:176-183 | 127.0.0.1 is local with or without a port, and every local sender's address starts with 127.0.0.1 |
| HttpApi.FirstPieceIsPrefix | managers/http_api.go:177 | the part before the first separator is a prefix of the text |
| HttpApi.ValidateAuth | managers/http_api.go:240-268 | no setting or "none" allows everything; local mode allows a non-token request exactly from localhost; token mode, and local mode given a token, needs a role list and a token holding one of its roles; any other setting refuses |
| HttpApi.TokenAuthIsRoleCheck | managers/http_api.go:212-227 | in token mode a request is allowed exactly when the OpenStack manager's role check for "token roles" succeeds |
| HttpApi.Zeros | managers/http_api.go:109 | k zero digits |
| HttpApi.Pad5 | managers/http_api.go:109 | the padded seed has at least five characters, all digits |
| HttpApi.ZerosValue | managers/http_api.go:109 | leading zeros do not change the value a digit string reads as |
| HttpApi.Pad5Value | managers/http_api.go:109 | the padded seed reads back as the seed |
| HttpApi.ResNameInjective | managers/http_api.go:106-110 | within one process, equal reservation names come from equal seeds |
| HttpApi.ResNamer.constructor | managers/http_api.go:106-110 | the name generator starts with the process id and seed given |
| HttpApi.ResNamer.MkResname | managers/http_api.go:106-110 | the name is that of the current seed, and the seed moves on by one |
| HttpApi.SuccessiveResNamesDiffer | managers/http_api.go:106-110 | two successive names are never equal |
| HttpApi.DeleteReservation | managers/http_api.go:1150-1183 | the reservation manager is asked exactly when there are 2 or 3 tokens, with the name and the cookie ("" when absent), and its answer is the result; otherwise the request is an error |
| HttpApi.AsRequest | managers/http_api.go:513-521 | a leading "auth=" token with something after it is taken as the token and dropped; otherwise the sender's address authorises and every token is kept |
| HttpApi.Requests | managers/http_api.go:508-511 | blank lines and comments are skipped, so there are no more requests than records |
| HttpApi.Outcomes | managers/http_api.go:523-1108 | unless a request fails hard, there is one outcome per request |
| HttpApi.Failures | managers/http_api.go:1106-1108 | the error count is at most the number of requests and is zero exactly when no request ended in ERROR (WARN is not an error) |
| HttpApi.ParseRecords | managers/http_api.go:478-1132 | the body fails hard exactly when some request does; otherwise it counts the requests and the ERROR states, is ERROR exactly when there was no request or one failed, and otherwise reports the last request's state, OK or WARN (a redundant pause or resume last gives WARN) |
| HttpApi.Conclude | managers/http_api.go:1121-1130 | with an error or no request the state is ERROR; otherwise it is the last request's state, WARN included |
| HttpApi.Tally | managers/http_api.go:522-1108 | one more request is counted with its state kept, and one more error exactly when that state is ERROR |
| HttpApi.RequestsSnoc | managers/http_api.go:508-521 | one more record adds its request at the end, unless it is skipped |
| HttpApi.OutcomesSnoc | managers/http_api.go:523-1108 | one more request adds its outcome at the end |
| HttpApi.ReadNext | managers/http_api.go:523-1108 | reading one more record adds nothing when it is blank or a comment and its request's state otherwise |
| HttpApi.ReadAll | managers/http_api.go:523-1108 | once every record is read, the states gathered are those of the whole body |
| HttpApi.FailuresSnoc | managers/http_api.go:1106-1108 | one more outcome adds one error exactly when its state is ERROR |
| HttpApi.OutcomesPanic | managers/http_api.go:523-1108 | a request that fails hard fails the whole body |
| HttpApi.DeleteNeverPanics | managers/http_api.go:1197-1263 | a body of delete requests never fails hard |
| HttpApi.AuthOnlyRecordPanics | managers/http_api.go:513-526 | a POST record holding only an "auth=" token leaves no command and fails hard |
| HttpApi.OutcomesTotal | managers/http_api.go:523-1108 | when no request can fail hard, there is one outcome per request |
| HttpApi.ClassDscp | managers/http_api.go:777-791 | no class, or "0", is voice without keep-on-exit; "global_c" is class c kept on exit; a class is accepted exactly when it is known with a positive value |
| HttpApi.ClassDscpDefaults | managers/http_api.go:1363-1366 | with the built-in classes the default is 46, "global_voice" is 46 kept on exit, "data" is 18, and an unknown name is refused |
| Agent.Shifts | managers/agent.go:241-253 | one shifted value per token, each four times the value the token reads as |
| Agent.ShiftValues | managers/agent.go:241-253 | the shifted list is the space-joined text of every token's value times four |
| Agent.JoinSnoc | managers/agent.go:246-250 | appending one more piece adds a separator and the piece at the end |
| Agent.ShiftedTokens | managers/agent.go:241-253 | the shifted list has as many tokens as the original, and each reads as four times its counterpart |
| Agent.ShiftedDefault | managers/agent.go:262-291 | the default DSCP list "40 41 42" becomes "160 164 168" |
| Agent.Shifts3 | managers/agent.go:241-253 | three tokens shift to three values, in order |
| Agent.Join3 | managers/agent.go:246-250 | three pieces joined with a separator |
| Agent.Split3 | managers/agent.go:244 | three pieces without the separator, joined by it, split back into the same three |
| Agent.DefaultText | managers/agent.go:262 | the default list is the three values joined by spaces |
| Agent.DefaultTokens | managers/agent.go:262 | the default list splits into "40", "41" and "42" |
| Agent.DefaultValues | managers/agent.go:262-291 | 40, 41 and 42 shift to 160, 164 and 168 |
| Agent.ShiftOne | managers/agent.go:247-248 | the decimal text of n shifts to the decimal text of 4n |
| Agent.TwoDigits | managers/agent.go:248 | a two-digit number prints as its tens and units digits |
| Agent.ThreeDigits | managers/agent.go:248 | a three-digit number prints as its hundreds, tens and units digits |
| Agent.Mac2PhostCmd | managers/agent.go:179-209 | no request for a nil or empty host list; otherwise a map_mac2phost action whose hosts, space-joined, are the list |
| Agent.IntermedqCmd | managers/agent.go:214-233 | no request for a nil or empty host list; otherwise an intermed_queues action carrying the DSCP list and the hosts of the list |
| Agent.HostsAreWords | managers/agent.go:199-222 | the hosts sent are the list split on spaces, and no host holds a space |
| Agent.DscpSetting | managers/agent.go:262-291 | without a pri_dscp setting the list is the default "40 41 42" |
| Agent.AgentMgr.constructor | managers/agent.go:258-291 | the manager starts with no agents, no host list and the shifted DSCP list |
| Agent.AgentMgr.MkAgent | managers/agent.go:82-91 | the new agent is filed under its id, replacing any before it; nothing else changes |
| Agent.AgentMgr.Disconnect | managers/agent.go:361-367 | a dropped agent is removed; an unknown id changes nothing |
| Agent.AgentMgr.Send2One | managers/agent.go:97-103 | exactly one write to some connected agent when there is one, and none otherwise |
| Agent.AgentMgr.Send2All | managers/agent.go:119-124 | one write of the message to every connected agent, each exactly once |
| Agent.AgentMgr.SendMac2Phost | managers/agent.go:179-209 | the map_mac2phost request goes to one agent when there is a host list and an agent, else nothing is written |
| Agent.AgentMgr.SendIntermedq | managers/agent.go:214-233 | the intermed_queues request goes to one agent when there is a host list and an agent, else nothing is written |
| Agent.AgentMgr.NewSession | managers/agent.go:353-359 | a new connection becomes an agent; with a host list known it is at once sent the mac2phost and then the intermediate-queue request |
| Agent.AgentMgr.SetHostList | managers/agent.go:330-333 | a host list received replaces the current one; a nil one is ignored |
| Toponet.SearchLeftmost | system/toponet.py:104 | the search finds nothing exactly when no position matches "digits/digits", and otherwise reports the groups of the leftmost match |
| Toponet.MatchNeedsSlash | system/toponet.py:104 | a port can only match when it holds a '/' |
| Toponet.NormalizePortNum | system/toponet.py:99-108 | a port without a card/interface pair is kept as it is; otherwise the result is the two numbers run together, all digits |
| Toponet.SearchDigits | system/toponet.py:104 | both groups of a match are non-empty digit strings |
| Toponet.NormalizePortNumIdempotent | system/toponet.py:99-108 | normalising a port twice is the same as once |
| Toponet.NormalizePortNumExamples | system/toponet.py:99-108 | the Cisco port "2/1" becomes "21" and the Arista port "7" stays "7" |
| Toponet.StripChars | system/toponet.py:115 | stripping only removes characters |
| Toponet.StripLeftChars | system/toponet.py:115 | stripping the left end only removes characters |
| Toponet.StripRightChars | system/toponet.py:115 | stripping the right end only removes characters |
| Toponet.StripStable | system/toponet.py:115 | stripping twice is the same as once |
| Toponet.NormalizeHostname | system/toponet.py:110-115 | a normalised host name holds no '.', so the domain is gone |
| Toponet.SplitFirstChars | system/toponet.py:115-118 | the first piece of a split only holds characters of the text |
| Toponet.ShortName | system/toponet.py:117-118 | a short name holds neither '@' nor '.' |
| Toponet.HostnamesIdempotent | system/toponet.py:110-118 | normalising a host name or shortening a name twice is the same as once; a bare name is only stripped |
| Toponet.NewLink | system/toponet.py:61-69 | a new link holds the ends, ports and mlag given, and is internal, bidirectional and of the default host capacity |
| Toponet.Keys | system/toponet.py:72-85 | one key per member, in order |
| Toponet.LinkMembersKeys | system/toponet.py:72-85 | a link's text has six members, plus "direction" exactly when it is bidirectional and "mlag", last, exactly when it has an mlag; no key repeats |
| Toponet.KeysDistinct | system/toponet.py:72-85 | the member keys are distinct, with direction and mlag present exactly when asked |
| Toponet.BodySnoc | system/toponet.py:72-85 | one more member adds ",\n" and its text at the end |
| Toponet.LinkStr | system/toponet.py:72-85 | the text built line by line is "{\n", the members joined by ",\n", and "\n}" |
| Toponet.Close | system/toponet.py:81-85 | closing the text after the fixed members gives the text of every member of the link |
| Toponet.PutLast | system/toponet.py:81 | a member written after a ",\n" extends the body by that member |
| Toponet.PutMore | system/toponet.py:82-83 | a member written with its leading ",\n" extends the body by that member |
| Toponet.Put | system/toponet.py:74-80 | a member written with its trailing ",\n" extends the body by that member |
| Toponet.Store | system/toponet.py:164-165 | the link is stored under its host and interface, creating the host's table; every other entry is kept |
| Toponet.Step | system/toponet.py:138-170 | a line keeps the current link identical to the stored one when they are the same object; a line fails exactly when it is a wanted interface line without a host name and none is given |
| Toponet.Run | system/toponet.py:138-170 | after any lines the current link still agrees with the stored one it aliases |
| Toponet.StepGood | system/toponet.py:138-170 | every line keeps all links shaped: source "host@iface" with port -128, a wanted interface, a normalised host and the default type, capacity and direction |
| Toponet.DashesClean | system/toponet.py:157-165 | a separator keeps links shaped and, when all were finished, keeps them finished |
| Toponet.AttrsGood | system/toponet.py:166-170 | an attribute line keeps links shaped, also when it changes the stored link through the alias |
| Toponet.RunGood | system/toponet.py:121-170 | from a table of shaped links every link stored stays shaped |
| Toponet.LastMark | system/toponet.py:144-170 | the last interface line or separator of a dump |
| Toponet.HeaderTidy | system/toponet.py:121-170 | a listing with lldpctl's header (a separator, a line that captures nothing, a separator) before its interface block counts as tidy |
| Toponet.RunTidy | system/toponet.py:121-170 | in a tidy dump (attribute lines that set nothing, as lldpctl's header lines, may follow a separator) every stored link stays finished, and the current link is shared only after a separator |
| Toponet.ParsedLinks | system/toponet.py:121-170 | parsing a tidy dump into an empty table stores only shaped, finished links: normalised far end and port, and the host's mlag group |
| Toponet.SeparatorStores | system/toponet.py:157-165 | a separator stores the current link with a normalised far end and port and the mlag "mlag_" + host; without a current link nothing happens |
| Toponet.IgnoredInterface | system/toponet.py:144-156 | an interface not in the wanted list drops the current link, and the lines after it change nothing until the next interface line |
| Toponet.AttrsAfterSeparator | system/toponet.py:166-170 | an attribute line after a separator changes the link already stored, through the alias |
| Toponet.RunStopped | system/toponet.py:138-170 | once a line has raised, the whole parse fails |
| Toponet.ParseLldpCtl | system/toponet.py:121-170 | the loop over the lines fails exactly when the line-by-line specification does, and otherwise leaves its table of links |
| Toponet.TextFile.constructor | system/toponet.py:321 | a file opens at its first line |
| Toponet.TextFile.Tell | system/toponet.py:301 | the position is the current one |
| Toponet.TextFile.ReadLine | system/toponet.py:302 | a read returns the next line and moves on by one, or "" at the end |
| Toponet.TextFile.Seek | system/toponet.py:305 | seeking moves to the position given |
| Toponet.ChunkEnd | system/toponet.py:300-306 | the chunk ends at the first line from the start that is empty (end of file) or matches the end tag |
| Toponet.LoadChunk | system/toponet.py:297-309 | the chunk is the lines before the end, concatenated, and the file is left positioned at the end line |
| Toponet.SwitchType | system/toponet.py:339-342 | a switch is Cisco exactly when its lldp section holds "Capability codes:", and Arista otherwise |
| Toponet.CiscoLegend | system/toponet.py:339-342 | any section holding the Cisco legend is typed Cisco |
| Toponet.StoreSame | system/toponet.py:164-165 | storing the link already stored under a host and interface leaves the table as it was |
| TopoWalk.FreshLinks | system/toponet.py:502-505 | a link is kept exactly when its far end has not been visited |
| TopoWalk.Knowers | system/toponet.py:506-508 | the entries are exactly the far end paired with each network source that knows it, at most one per source, and no entry twice when the sources form a set |
| TopoWalk.Enqueued | system/toponet.py:502-508 | an entry is queued exactly when some recorded link leads to its element and its source knows that element |
| TopoWalk.EnqueueDst | system/toponet.py:506-508 | the far end is queued with every network source that knows it and with no other, in the sources' order, each source once when the sources form a set |
| TopoWalk.ExpandLinks | system/toponet.py:501-508 | the links recorded are exactly the fresh ones, in order, and the entries queued are exactly their far ends with the network sources that know them |
| TopoWalk.NonHosts | system/toponet.py:497-498 | the switches are exactly the expanded elements that are not hosts, without repeats when no element was expanded twice |
| TopoWalk.TopoGen.constructor | system/toponet.py:455-461 | a generator starts with no sources, links, hosts or switches |
| TopoWalk.TopoGen.SetHostLoader | system/toponet.py:463-464 | a host source is added to the set of host sources (once) |
| TopoWalk.TopoGen.SetNetLoader | system/toponet.py:466-467 | a network source is added to the set of network sources (once) |
| TopoWalk.TopoGen.QueueHosts | system/toponet.py:486-489 | the host list is every element of every host source, in order, each is queued with its own source, and nothing but hosts is queued |
| TopoWalk.TopoGen.Topogen | system/toponet.py:476-510 | every host is expanded, no element twice; the switches are the expanded non-hosts in the order they were expanded; the links are, expansion by expansion, each expanded element's links whose far end was not expanded before; every far end a network source knows is reached; every expanded element that is not a host is the far end of a link recorded while expanding an earlier element |
| TopoWalk.WalkFrom | system/toponet.py:491-510 | the walk from the queued hosts expands each reachable element once, records the switches and the fresh links in expansion order, and leaves nothing known unvisited; every element expanded was queued at the start or is the far end of a link recorded before it was expanded; the expansion order itself is returned alongside |
| TopoWalk.ReachExpand | system/toponet.py:492-510 | expanding the head of the queue keeps every queued element a starting element or the far end of a recorded link, and the element expanded is one of these |
| TopoWalk.QueueFromPop | system/toponet.py:492-495 | dropping the head of the queue keeps every queued element a starting element or a recorded far end |
| TopoWalk.ReachableSeeds | system/toponet.py:486-492 | when only hosts were queued at the start, every expanded element is a host or a far end recorded before it |
| TopoWalk.UnreachedSwitchRefused | system/toponet.py:491-510 | a walk expanding a network element that no recorded link leads to (a host without links, then "a") does not meet `Reachable` |
| TopoWalk.WalkHead | system/toponet.py:492 | the head of the queue is an element its source knows, a host or a network element |
| TopoWalk.WalkSkip | system/toponet.py:494-495 | skipping a visited element keeps the walk's invariant |
| TopoWalk.WalkExpand | system/toponet.py:497-510 | expanding an unvisited element keeps the walk's invariant |
| TopoWalk.WalkDone | system/toponet.py:491-510 | with the queue empty, the invariant gives the walk's promises |
| TopoWalk.PopQueue | system/toponet.py:492 | taking the head keeps the queue well formed and removes just that element |
| TopoWalk.QueueOkAppend | system/toponet.py:506-508 | appending entries a network source knows keeps the queue well formed |
| TopoWalk.SwitchesStep | system/toponet.py:497-498 | expanding a new element extends the switch list by that element exactly when it is not a host, and the expanded list stays free of repeats |
| TopoWalk.LinksStep | system/toponet.py:502-505 | the fresh links of an element are appended to the recorded links and recorded as coming from it |
| TopoWalk.ClosedSkip | system/toponet.py:494-495 | skipping a visited element keeps every known far end visited or queued |
| TopoWalk.ClosedStep | system/toponet.py:497-510 | expanding an element queues the far ends its fresh links lead to, so every known far end stays visited or queued |
| Events.Conv | managers/events.go:72-98 | a payload value converts to text unless its type is one the switch does not handle |
| Events.ConvTexts | managers/events.go:76-92 | a boolean becomes "true" or "false", a nil string pointer becomes "", and an integer becomes decimal text that reads back as the same integer |
| Events.Smap | managers/events.go:65-104 | the map holds exactly the requested names that are present with a handled type, each mapped to its value's converted text |
| Events.Failed | managers/events.go:96-98 | the failed names are exactly the requested names that are absent or have an unhandled type |
| Events.MissingIsFailed | managers/events.go:67-98 | the missing-things text is the failed names in request order, each after one space |
| Events.MissingEmpty | managers/events.go:65-104 | the missing-things text is empty exactly when every requested name is present with a handled type |
| Events.MissingSnoc | managers/events.go:71-98 | requesting one more name only appends that name's own part to the missing-things text |
| Events.PayloadToSmap | managers/events.go:65-104 | the loop over the space-separated names builds exactly the converted-fields map and the missing-things text |
| Events.EndptFields | managers/events.go:119 | the endpoint field list splits into the six names uuid, owner, mac, ip, phost and action |
| Events.EndptText | managers/events.go:119 | joining the six endpoint fields with spaces gives back the field list text |
| Events.SmapComplete | managers/events.go:119-129 | when all six fields convert, the converted map holds every field the dispatch reads |
| Events.Dispatch | managers/events.go:129-155 | add and mod send the endpoint with its physical host and port -128; del and delete send it with no physical host and port -2; any other action sends nothing; with an ack wanted the reply is OK after a request and ERROR otherwise |
| Events.NetevEndpt | managers/events.go:113-158 | an event missing any field sends nothing and, when acked, replies ERROR naming exactly the failed fields; a complete event is handled by the action dispatch |
| Pledges.Pledge.constructor | gizmos/pledge.go:99-116 | a new pledge holds the given hosts, times, bandwidths, id, user key and dscp, with no queue id, no paths, not pushed and not paused |
| Pledges.Pledge.Assign | gizmos/pledge.go:136-158 | after the copies, the checkpointed fields of the pledge are those of the decoded record, a nil host, id or user key held as "" |
| ResMgr.Inventory.constructor | managers/res_mgr.go:466-473 | a new inventory has an empty reservation cache, which trivially keeps every pledge filed under its own id |
| ResMgr.Records | managers/res_mgr.go:377-404 | the checkpoint has one record per pledge written |
| Switches.TrailList.constructor | gizmos/switch.go:370 | a new trail list holds no trails and no end switch |
| Switches.NoPathsMsg | gizmos/switch.go:411 | the no-paths error names both the starting switch and the target |
| Switches.Dedup | gizmos/switch.go:378-386 | the first-seen map never has more entries than there are links |
| Switches.DedupSnoc | gizmos/switch.go:381-383 | one more link is entered under its id only when that id is not yet taken |
| Switches.Wrapped | gizmos/switch.go:266-268 | a fifo index up to the length of the fifo is kept; only an index past it wraps to zero |
| TeguHa.Controller.constructor | system/tegu_ha.py:259-276 | the controller starts with the standby list, this node's name and its priority, and is not waiting on a higher-priority node |
| ResMgr.PushKey | managers/res_mgr.go:324-345 | pushing the pledge under one key may change only that pledge's flag, because distinct keys hold distinct pledges; the flag becomes set when it was set or the pledge was selected and its push went through |
| FqMgr.Emit | managers/fq_mgr.go:406-425 | once the priority and timeout are settled, the flow-mods sent are exactly those the generic flow-mod specification gives: one per listed host, or one to the named switch |
| FqMgr.FanOut | managers/fq_mgr.go:407-416 | the per-host loop sends one flow-mod per host of the list, in list order, each differing only in its host |
| FqMgr.EmittedFields | managers/fq_mgr.go:412 | every flow-mod sent carries the match options that were built, the action options, the normalised priority and a timeout that is not negative |
| FqMgr.MatchT | managers/fq_mgr.go:349-351 | the match options hold a -T option exactly when the DSCP to match is not negative, and it carries that DSCP shifted onto the TOS bits |
| FqMgr.ActionT | managers/fq_mgr.go:367-369 | the action options hold a -T option exactly when the DSCP to write is not negative and differs from the matched one, and it carries that DSCP shifted |
| FqMgr.ActionHead | managers/fq_mgr.go:354-402 | the action options split into the options before the resub list, then the resub options, then the output flag as the last option |
| FqMgr.ResubsLast | managers/fq_mgr.go:392-402 | the -R options of a resub list occupy, in token order, the places just before the final output flag |
| TeguHa.ReadStandby | system/tegu_ha.py:265 | the standby list read from the file is the file's lines, each stripped, in order |
| TeguHa.PositionOf | system/tegu_ha.py:268 | the index found is that of the first occurrence of this node in the list, or the list's length when it is absent |
| Toponet.SearchNone | system/toponet.py:104 | the search from a position finds nothing exactly when no later position starts a "digits/digits" match |
| Toponet.SearchFound | system/toponet.py:104 | a successful search reports the groups of a match at some position, and no earlier position matches |
| Toponet.ChunkEndAt | system/toponet.py:300-306 | within a chunk, a line position is the chunk's end exactly when it is past the last line, an empty read (the end of the file) or a line the end tag matches |
| Toponet.ConcatSlice | system/toponet.py:307-308 | reading one more line of a chunk appends that line to the text gathered so far |

## Left out

- I/O is not modelled:
  - the shell, ssh, curl, tar, ls and date calls of the failover controller, which are
    answered by a `Shell` oracle;
  - `time.sleep`, which becomes an output;
  - file reads of the standby list and the checkpoints;
  - logging.
- Goroutines, channels, the manager `select` loops, mutexes and the tickler are not modelled.
  Each message handler is modelled sequentially, and its sends are returned.
- OpenStack and library calls are parameters or given values:
  - `token2project` and `Crack_ptoken`;
  - the VM maps of a project;
  - subnet membership;
  - `encoding/json` marshalling, whose JSON text is not reproduced;
  - the regular-expression engine.
- `HaTime.ExtractDt`: `time.mktime` is taken to be in UTC. The local timezone and daylight
  saving are not modelled. Its year handling follows Python 2 with `time.accept2dyear` set,
  the default.
- Go's 64-bit integer overflow is not modelled, including in the two-bit DSCP shift. Go's
  `strconv` parsers are modelled as follows:
  - a syntax error gives 0;
  - an out-of-range value is clamped;
  - the exact error texts are not reproduced.
- `clike.Atoi` and `clike.Atoll` are modelled as an optional sign followed by leading decimal
  digits, with 0 when there are none.
- Floating point is not modelled:
  - the `clike.Atof` bandwidth parsing in managers/http_api.go;
  - the `%.3f` payload formatting in managers/events.go, where the payload value carries its
    own text.
- gizmos/link.go, gizmos/fence.go and the other gizmos are not part of this model. A link is
  reduced to its id, its far-end switch and its cost. Whether it has capacity is an oracle
  fixed for one request.
- `Switches.Switch.PathTo` does not state that the search is breadth-first, i.e. that the
  first hit is one of the fewest hops away. It states the hit, the predecessor link, the
  cost and visited changes, exhaustion and the capacity trip.
- `TopoWalk.TopoGen.Topogen` and `TopoWalk.WalkFrom` do not state the queue order, i.e. that
  elements are expanded first in, first out. They state which elements are expanded, each
  once; that every non-host expanded was reached over a link recorded while expanding an
  earlier element; and which links each expansion records.
- Switch flags are modelled as a visited boolean.
- The 4096-entry working arrays of `All_paths_to` are unbounded in the model. The source
  would panic past 4096 entries.
- Go's random map iteration order is modelled as an arbitrary choice, or as an explicit
  order parameter.
- Python set iteration order in `topogen` is modelled as a sequence with set-add semantics.
- A Go map entry that holds nil is not modelled.
- `Pledges.Pledge.FromJson`: the pledge class holds its hosts, id and user key as strings, so
  a record without one of those keys leaves "" in the class where Go leaves a nil pointer.
  The nil pointers are kept in the decoded record (`Pledges.JsonPledge`), and
  `ResMgr.StepOf` decides on that record which dereference crashes `load_chkpt`.
- `ResMgr.Inventory.LoadChkpt`: the reservation request a live pledge sends to the network
  is not modelled as a call. The network manager has no case for `REQ_RESERVE`: its default
  branch (managers/network.go:1737-1738) answers with the nil state set at line 1226, so
  every such request is granted and the refusal branch at managers/res_mgr.go:446-449 is
  never taken.
- `Pledges.ChkptRoundTrip`: the round trip is stated on the record as a JSON object, not on
  its text. `To_chkpt` writes the string fields with Go's `%q` quoting, which turns control
  characters, invalid UTF-8 and non-printable runes outside the basic plane into `\a`, `\v`,
  `\xNN` and `\UNNNNNNNN` escapes that JSON does not accept. A record holding such a
  character fails to decode on reload, and `load_chkpt` then crashes on the empty pledge.
  The lemma, and `ResMgr.RecordStep` and `ResMgr.ReloadRestores` built on it, hold only for
  strings whose `%q` quoting is valid JSON.
- The data-source loaders of system/toponet.py are not modelled: SNMP, SSH and nova,
  `parseCisco` and `parseArista`, `loadSources` with its `loaded` flag, and
  `outJson`/`outGraphViz`. The walk starts from sources that are already loaded.
- `Toponet.ParseLldpCtl`: the regular expressions that classify lines are not modelled, and
  lines arrive already classified. The end-tag test of `loadChunk` is a predicate parameter,
  and `\d` matches ASCII digits only. If a dump raises, the partly updated hosts dictionary
  is not kept.
- `Toponet.ParsedLinks` assumes a tidy dump: after a separator, and before the next
  interface line, no attribute line sets a far end, port or MLAG group (lines that set
  nothing, such as lldpctl's header, are allowed). Otherwise the link object shared
  between the current link and the table is changed after it is stored.
- Only the purge decision of `write_chkpt` and the reload of `load_chkpt` are modelled. The
  checkpoint file handling and the `adjust_queues` temporary file and exec are not.
- Several commands of `parse_post` and `parse_delete` are oracles that report an outcome:
  the reservation, steering, mirroring, listing, pause and resume commands, with their
  messages. Such an oracle gives each request's state, OK, WARN (a pause while paused, a
  resume while running) or ERROR. The model keeps the record skipping, the auth token
  handling and the status aggregation. The following are not modelled:
  - how the error count is adjusted from a command's own count;
  - the priority rewrite of a request;
  - the admin and sysproc role lookups.
- `FqMgr.GfmodDscp` assumes the external option is not "-T".
- The agent's JSON input cache, `process_input` and the connection session manager are not
  modelled. Agent writes are returned `Write` values.
- The tokenising helper `Tokenise_qpopulated` is not modelled.
- The fq manager's SDN-controller (skoogi) branches are not modelled. Its `uri_prefix`,
  built from the SDN host at managers/fq_mgr.go:557, selects them in `REQ_IE_RESERVE`
  (lines 576-590) and `REQ_RESERVE` (lines 654-661). `FqMgr.IeReserve` models the branch
  taken without an SDN host (lines 590-648).
- In managers/osif.go, `refresh_creds` and `get_hosts` are not modelled. The credential expiry
  is a given flag.
- In managers/osif_proj.go, the `Mk_netreq_vm` and `Get_info` call at the end of
  `get_hostinfo` is not modelled.
- HTTP serving and response writing are not modelled: the listeners, `mirror_handler`,
  `dig_data` and the date formatting.
- managers/res_mgr.go calls `Set_expiry`, `Pause`, `Resume`, `Is_extinct`, `Get_ptype` and
  `Is_paused`, but gizmos/pledge.go does not define them. Their model follows how the calls
  use them and what they are named: a field store, the paused flag with an optional pushed
  reset, "expired more than the window ago", the pledge's kind, and the paused flag read
  back.
- `push_bw_reservation` and `push_st_reservation` in managers/res_mgr.go, which build the
  flow-mod requests of one pledge (a paused pledge's requests expire 15 s from now), are not
  modelled. `push_reservations` is modelled down to which pledges it selects and whether
  each push succeeds.
