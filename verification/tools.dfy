/** The token helpers of `gizmos/tools.go`: reservation windows and host pairs from request
    tokens, and maps built from `key=value` and positional tokens. */
module Tools {
  import opened Wrappers
  import opened Strs
  import opened Nums

  function Max(a: int, b: int): int { if a < b then b else a }

  /** `Str2start_end`: "+n" is a window of n seconds from now, "a-b" runs from a (moved up to
      now when older) to b, and a bare timestamp runs from now to it; the end is then moved up to
      the start. An empty token panics when its first character is sliced off. */
  function StartEnd(tok: string, now: int): (r: Result<(int, int)>)
    ensures r.Err? <==> tok == ""
    ensures r.Ok? ==> r.value.0 <= r.value.1
    ensures r.Ok? && tok[0] != '+' && 0 < IndexOf(tok, '-') ==> r.value.0 >= now
    ensures r.Ok? && !(tok[0] != '+' && 0 < IndexOf(tok, '-')) ==> r.value.0 == now
  {
    if tok == "" then Err("slice bounds out of range")
    else
      var (s, e) :=
        if tok[0] == '+' then (now, now + Atoll(tok))
        else
          var idx := IndexOf(tok, '-');
          if idx > 0 then (Max(Atoll(tok[..idx]), now), Atoll(tok[idx + 1..]))
          else (now, Atoll(tok));
      Ok((s, Max(e, s)))
  }

  /** The separator search stops at the first separator when the head has none. */
  lemma IndexOfJoin(a: string, c: char, b: string)
    requires c !in a
    ensures IndexOf(a + [c] + b, c) == |a|
  {
    var s := a + [c] + b;
    assert s[|a|] == c;
    assert forall i :: 0 <= i < |a| ==> s[i] == a[i];
  }

  lemma DigitsNoSign(s: string)
    requires AllDigits(s)
    ensures '-' !in s && ',' !in s
  {
    assert forall i :: 0 <= i < |s| ==> s[i] != '-' && s[i] != ',';
  }

  /** A written "a-b" window reads back as a (or now, if later) to b (or the start, if earlier). */
  lemma StartEndRange(a: nat, b: nat, now: int)
    ensures StartEnd(NatStr(a) + "-" + NatStr(b), now) == Ok((Max(a, now), Max(b, Max(a, now))))
  {
    var tok := NatStr(a) + "-" + NatStr(b);
    DigitsNoSign(NatStr(a));
    IndexOfJoin(NatStr(a), '-', NatStr(b));
    assert tok[..|NatStr(a)|] == NatStr(a);
    assert tok[|NatStr(a)| + 1..] == NatStr(b);
    AtollNatStr(a);
    AtollNatStr(b);
    assert tok[0] == NatStr(a)[0];
  }

  /** A written "+n" window is n seconds from now. */
  lemma StartEndDuration(n: nat, now: int)
    ensures StartEnd("+" + NatStr(n), now) == Ok((now, now + n))
  {
    AtollNatStr(n);
  }

  /** A bare timestamp t is the window from now to t, or empty when t is past. */
  lemma StartEndBare(t: nat, now: int)
    ensures StartEnd(NatStr(t), now) == Ok((now, Max(t, now)))
  {
    var s := NatStr(t);
    DigitsNoSign(s);
    assert s[0] != '+';
    AtollNatStr(t);
  }

  /** `Str2host1_host2`: split at the first comma when it is not leading, otherwise at the first
      dash when it is not leading, otherwise the second host is "any". */
  function HostPair(tok: string): (r: (string, string))
    ensures var c := IndexOf(tok, ','); c > 0 ==> r.0 + "," + r.1 == tok && ',' !in r.0
    ensures var c := IndexOf(tok, ','); var d := IndexOf(tok, '-');
      c <= 0 && d > 0 ==> r.0 + "-" + r.1 == tok && '-' !in r.0
    ensures IndexOf(tok, ',') <= 0 && IndexOf(tok, '-') <= 0 ==> r == (tok, "any")
  {
    var c := IndexOf(tok, ',');
    if c > 0 then
      assert tok == tok[..c] + "," + tok[c + 1..];
      (tok[..c], tok[c + 1..])
    else
      var d := IndexOf(tok, '-');
      if d > 0 then
        assert tok == tok[..d] + "-" + tok[d + 1..];
        (tok[..d], tok[d + 1..])
      else (tok, "any")
  }

  /** Joining two hosts with a comma and splitting them again gives them back, whatever dashes
      they hold (the reason the comma form exists). */
  lemma HostPairComma(h1: string, h2: string)
    requires h1 != "" && ',' !in h1
    ensures HostPair(h1 + "," + h2) == (h1, h2)
  {
    IndexOfJoin(h1, ',', h2);
    var tok := h1 + "," + h2;
    assert tok[..|h1|] == h1 && tok[|h1| + 1..] == h2;
  }

  /** Likewise with a dash, when neither host holds a comma and the first holds no dash. */
  lemma HostPairDash(h1: string, h2: string)
    requires h1 != "" && ',' !in h1 && ',' !in h2 && '-' !in h1
    ensures HostPair(h1 + "-" + h2) == (h1, h2)
  {
    var tok := h1 + "-" + h2;
    assert forall i :: 0 <= i < |h1| ==> tok[i] == h1[i];
    assert forall i :: |h1| < i < |tok| ==> tok[i] == h2[i - |h1| - 1];
    IndexOfJoin(h1, '-', h2);
    assert tok[..|h1|] == h1 && tok[|h1| + 1..] == h2;
  }

  // ---- Toks2map -------------------------------------------------------------------------

  /** A `key=value` token: it holds an '='; the key is the text before the first one. */
  predicate IsPair(t: string) { '=' in t }

  function Key(t: string): string
  {
    SplitN2(t, '=')[0]
  }

  function Val(t: string): string
    requires IsPair(t)
  {
    SplitN2(t, '=')[1]
  }

  /** `acc` updated, left to right, with every pair among `toks`. */
  function Pairs(acc: map<string, string>, toks: seq<string>): map<string, string>
    decreases |toks|
  {
    if toks == [] then acc
    else Pairs(if IsPair(toks[0]) then acc[Key(toks[0]) := Val(toks[0])] else acc, toks[1..])
  }

  /** The keys are those of `acc` and those of the pair tokens. */
  lemma {:induction false} PairsKeys(acc: map<string, string>, toks: seq<string>, k: string)
    ensures k in Pairs(acc, toks) <==> k in acc || exists i :: 0 <= i < |toks| && IsPair(toks[i]) && Key(toks[i]) == k
    decreases |toks|
  {
    if toks != [] {
      var acc' := if IsPair(toks[0]) then acc[Key(toks[0]) := Val(toks[0])] else acc;
      PairsKeys(acc', toks[1..], k);
      if exists i :: 0 <= i < |toks[1..]| && IsPair(toks[1..][i]) && Key(toks[1..][i]) == k {
        var i :| 0 <= i < |toks[1..]| && IsPair(toks[1..][i]) && Key(toks[1..][i]) == k;
        assert toks[i + 1] == toks[1..][i];
      }
      if exists i :: 0 <= i < |toks| && IsPair(toks[i]) && Key(toks[i]) == k {
        var i :| 0 <= i < |toks| && IsPair(toks[i]) && Key(toks[i]) == k;
        if i > 0 {
          assert toks[1..][i - 1] == toks[i];
        }
      }
    }
  }

  /** Without a later pair for the same key, the value of a pair token is the one kept: later
      duplicates overwrite earlier ones. */
  lemma {:induction false} PairsLast(acc: map<string, string>, toks: seq<string>, i: nat)
    requires i < |toks| && IsPair(toks[i])
    requires forall l :: i < l < |toks| && IsPair(toks[l]) ==> Key(toks[l]) != Key(toks[i])
    ensures Key(toks[i]) in Pairs(acc, toks) && Pairs(acc, toks)[Key(toks[i])] == Val(toks[i])
    decreases |toks|
  {
    var acc' := if IsPair(toks[0]) then acc[Key(toks[0]) := Val(toks[0])] else acc;
    if i == 0 {
      PairsKeep(acc', toks[1..], Key(toks[0]));
    } else {
      forall l | i - 1 < l < |toks[1..]| && IsPair(toks[1..][l])
        ensures Key(toks[1..][l]) != Key(toks[1..][i - 1])
      {
        assert toks[1..][l] == toks[l + 1];
      }
      PairsLast(acc', toks[1..], i - 1);
    }
  }

  /** A key that no token sets keeps its value from `acc`. */
  lemma {:induction false} PairsKeep(acc: map<string, string>, toks: seq<string>, k: string)
    requires k in acc
    requires forall l :: 0 <= l < |toks| && IsPair(toks[l]) ==> Key(toks[l]) != k
    ensures k in Pairs(acc, toks) && Pairs(acc, toks)[k] == acc[k]
    decreases |toks|
  {
    if toks != [] {
      var acc' := if IsPair(toks[0]) then acc[Key(toks[0]) := Val(toks[0])] else acc;
      forall l | 0 <= l < |toks[1..]| && IsPair(toks[1..][l]) ensures Key(toks[1..][l]) != k {
        assert toks[1..][l] == toks[l + 1];
      }
      PairsKeep(acc', toks[1..], k);
    }
  }

  /** `Toks2map`: every `key=value` token is entered under its key, in order. */
  method Toks2Map(toks: seq<string>) returns (m: map<string, string>)
    ensures m == Pairs(map[], toks)
  {
    m := map[];
    var i := 0;
    while i < |toks|
      invariant 0 <= i <= |toks|
      invariant Pairs(m, toks[i..]) == Pairs(map[], toks)
    {
      assert toks[i..][1..] == toks[i + 1..];
      var t := SplitN2(toks[i], '=');
      if |t| == 2 {
        m := m[t[0] := t[1]];
      }
      i := i + 1;
    }
    assert toks[i..] == [];
  }

  // ---- Mixtoks2map ----------------------------------------------------------------------

  /** Number of leading pair tokens. */
  function LeadPairs(toks: seq<string>): (n: nat)
    ensures n <= |toks|
    ensures forall i :: 0 <= i < n ==> IsPair(toks[i])
    ensures n < |toks| ==> !IsPair(toks[n])
  {
    if toks == [] || !IsPair(toks[0]) then 0 else 1 + LeadPairs(toks[1..])
  }

  /** `acc` with `names[i]` bound to `vals[i]`, left to right. */
  function Bind(acc: map<string, string>, names: seq<string>, vals: seq<string>): map<string, string>
    requires |names| == |vals|
    decreases |names|
  {
    if names == [] then acc else Bind(acc[names[0] := vals[0]], names[1..], vals[1..])
  }

  /** Number of names that receive a positional token. */
  function Bound(toks: seq<string>, nlist: seq<string>): (n: nat)
    ensures n <= |nlist| && LeadPairs(toks) + n <= |toks|
  {
    var j := LeadPairs(toks);
    if |nlist| < |toks| - j then |nlist| else |toks| - j
  }

  /** What `Mixtoks2map` builds from the tokens and the list of names: the leading pairs, then
      the names bound to the tokens after them, in order, until either runs out. */
  function MixMap(toks: seq<string>, nlist: seq<string>): map<string, string>
  {
    var j := LeadPairs(toks);
    var n := Bound(toks, nlist);
    Bind(Pairs(map[], toks[..j]), nlist[..n], toks[j..j + n])
  }

  /** A name whose later occurrences are not bound holds its own token. */
  lemma {:induction false} BindLast(acc: map<string, string>, names: seq<string>, vals: seq<string>, i: nat)
    requires |names| == |vals| && i < |names| && names[i] !in names[i + 1..]
    ensures names[i] in Bind(acc, names, vals) && Bind(acc, names, vals)[names[i]] == vals[i]
    decreases |names|
  {
    if i == 0 {
      BindKeep(acc[names[0] := vals[0]], names[1..], vals[1..], names[0]);
    } else {
      assert names[1..][i - 1] == names[i] && names[1..][i..] == names[i + 1..];
      BindLast(acc[names[0] := vals[0]], names[1..], vals[1..], i - 1);
    }
  }

  /** A key that is not among the names keeps its value, and a key in neither is absent. */
  lemma {:induction false} BindKeep(acc: map<string, string>, names: seq<string>, vals: seq<string>, k: string)
    requires |names| == |vals| && k !in names
    ensures k in Bind(acc, names, vals) <==> k in acc
    ensures k in acc ==> Bind(acc, names, vals)[k] == acc[k]
    decreases |names|
  {
    if names != [] {
      assert forall l :: 0 <= l < |names[1..]| ==> names[1..][l] == names[l + 1];
      BindKeep(acc[names[0] := vals[0]], names[1..], vals[1..], k);
    }
  }

  /** The promises of `Mixtoks2map`: the i-th name (when not repeated later) maps to the i-th
      token after the leading pairs, and a name that is neither bound nor a leading key is
      absent. */
  lemma MixMapBinds(toks: seq<string>, nl: seq<string>, i: nat)
    requires i < Bound(toks, nl) && nl[i] !in nl[i + 1..Bound(toks, nl)]
    ensures nl[i] in MixMap(toks, nl) && MixMap(toks, nl)[nl[i]] == toks[LeadPairs(toks) + i]
  {
    var n := Bound(toks, nl);
    var j := LeadPairs(toks);
    assert nl[..n][i + 1..] == nl[i + 1..n];
    BindLast(Pairs(map[], toks[..j]), nl[..n], toks[j..j + n], i);
  }

  lemma MixMapAbsent(toks: seq<string>, nl: seq<string>, k: string)
    requires k !in nl[..Bound(toks, nl)]
    requires forall i :: 0 <= i < LeadPairs(toks) ==> Key(toks[i]) != k
    ensures k !in MixMap(toks, nl)
  {
    var j := LeadPairs(toks);
    var n := Bound(toks, nl);
    PairsKeys(map[], toks[..j], k);
    assert forall i :: 0 <= i < j ==> toks[..j][i] == toks[i];
    BindKeep(Pairs(map[], toks[..j]), nl[..n], toks[j..j + n], k);
  }

  /** The first loop of `Mixtoks2map`: the leading pairs, and the index of the first
      positional token. */
  method LeadingPairs(toks: seq<string>) returns (m: map<string, string>, j: nat)
    ensures j == LeadPairs(toks) && m == Pairs(map[], toks[..j])
  {
    ghost var lead := LeadPairs(toks);
    m := map[];
    j := 0;
    while j < |toks| && IndexOf(toks[j], '=') >= 0
      invariant 0 <= j <= lead
      invariant Pairs(m, toks[j..lead]) == Pairs(map[], toks[..lead])
    {
      assert toks[j..lead][1..] == toks[j + 1..lead];
      var stok := SplitN2(toks[j], '=');
      m := m[stok[0] := stok[1]];
      j := j + 1;
    }
  }

  /** `Mixtoks2map`: the leading pairs are mapped, then the names are bound to the tokens after
      them until the tokens run out. */
  method MixToks2Map(toks: seq<string>, names: string) returns (m: map<string, string>)
    ensures m == MixMap(toks, Split(names, ' '))
  {
    var nlist := Split(names, ' ');
    var maxt := |toks|;
    var j;
    m, j := LeadingPairs(toks);
    ghost var lead := j;
    ghost var n := Bound(toks, nlist);
    ghost var target := MixMap(toks, nlist);
    var i := 0;
    while i < |nlist| && j < maxt
      invariant j == lead + i && i <= n
      invariant Bind(m, nlist[i..n], toks[j..lead + n]) == target
    {
      assert nlist[i..n][1..] == nlist[i + 1..n];
      assert toks[j..lead + n][1..] == toks[j + 1..lead + n];
      m := m[nlist[i] := toks[j]];
      i := i + 1;
      j := j + 1;
    }
  }
}
