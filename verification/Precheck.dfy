/** The port check that precedes a run: which endpoints it probes, and what it reports. */
module Precheck {
  import opened Prelude
  import opened Contract
  import opened Runtime
  import opened Template
  import opened Targets
  import opened Ordering

  // ---------- what is checked ----------

  /** A socket host with the scan target's variables filled in; left as it is if that fails. */
  function ResolveTemplate(host: Str, variables: Variables): Str {
    match Interpolate(host, variables)
    case Ok(s) => s
    case Err(_) => host
  }

  /** Scan variables are never lists, so filling them in never fails. */
  lemma ResolveNeverFallsBack(r: Resolver, baseUrl: Str, host: Str)
    ensures Interpolate(host, ScanTargetVariables(r, baseUrl))
         == Ok(ResolveTemplate(host, ScanTargetVariables(r, baseUrl)))
  {
    hide Interpolate;
    InjectedEqualsPrechecked(r, baseUrl);
    InterpolateFailsOnLists(host, ScanTargetVariables(r, baseUrl));
  }

  predicate Prechecked(p: ProbeKind) { p.Tcp? && p.socket.port.Some? }

  function ProbeEndpoint(r: Resolver, baseUrl: Str, p: ProbeKind): Endpoint
    requires Prechecked(p)
  {
    (NormalizeHost(r, ResolveTemplate(p.socket.host, ScanTargetVariables(r, baseUrl))), p.socket.port.value)
  }

  predicate HasHttp(spec: ProgramSpec) { exists k | k in spec.probes :: spec.probes[k].Http? }

  ghost function ProbeEndpoints(r: Resolver, spec: ProgramSpec, baseUrl: Str, names: set<Str>): set<Endpoint>
    requires names <= spec.probes.Keys
  {
    set k | k in names && Prechecked(spec.probes[k]) :: ProbeEndpoint(r, baseUrl, spec.probes[k])
  }

  ghost function TargetEndpoint(r: Resolver, spec: ProgramSpec, baseUrl: Str): set<Endpoint> {
    match ScanTargetHostPort(r, baseUrl)
    case Some(e) => if HasHttp(spec) then {e} else {}
    case None => {}
  }

  /** The TCP probes' endpoints, and the scan target's when there is an HTTP probe. */
  ghost function RequiredEndpoints(r: Resolver, spec: ProgramSpec, baseUrl: Str): set<Endpoint> {
    ProbeEndpoints(r, spec, baseUrl, spec.probes.Keys) + TargetEndpoint(r, spec, baseUrl)
  }

  /** Whether an endpoint is checked, told from the probes and the target's URL: some TCP probe with a port goes
      there, or it is the target's and there is an HTTP probe. */
  lemma RequiredIff(r: Resolver, spec: ProgramSpec, baseUrl: Str, e: Endpoint)
    ensures e in RequiredEndpoints(r, spec, baseUrl) <==>
              || (exists k | k in spec.probes ::
                    && spec.probes[k].Tcp? && spec.probes[k].socket.port == Some(e.1)
                    && exists host ::
                         && Interpolate(spec.probes[k].socket.host, InjectScanTarget(r, baseUrl, map[])) == Ok(host)
                         && e.0 == NormalizeHost(r, host))
              || ((exists k | k in spec.probes :: spec.probes[k].Http?)
                  && r.parseUrl(baseUrl).Some? && r.parseUrl(baseUrl).value.host.Some?
                  && var url := r.parseUrl(baseUrl).value;
                     && e.0 == NormalizeHost(r, url.host.value)
                     && e.1 == if url.port.Some? then url.port.value else if url.https then 443 else 80)
  {
    hide Interpolate, NormalizeHost, ScanTargetVariables;
    InjectedEqualsPrechecked(r, baseUrl);
    forall k | k in spec.probes && Prechecked(spec.probes[k])
      ensures Interpolate(spec.probes[k].socket.host, InjectScanTarget(r, baseUrl, map[]))
           == Ok(ResolveTemplate(spec.probes[k].socket.host, ScanTargetVariables(r, baseUrl)))
    {
      ResolveNeverFallsBack(r, baseUrl, spec.probes[k].socket.host);
    }
  }

  // ---------- sorting and deduplication ----------

  ghost predicate Ascending(s: seq<Endpoint>) {
    forall i, j | 0 <= i < j < |s| :: EndpointLe(s[i], s[j])
  }

  lemma ElementsSnoc(s: seq<Endpoint>, e: Endpoint)
    ensures Elements(s + [e]) == Elements(s) + {e}
  {
    assert forall x :: x in s + [e] <==> x in s || x == e;
  }

  method InsertEndpoint(s: seq<Endpoint>, e: Endpoint) returns (r: seq<Endpoint>)
    requires Ascending(s)
    ensures Ascending(r) && Elements(r) == Elements(s) + {e}
  {
    hide EndpointLe;
    EndpointOrder();
    var i := 0;
    while i < |s| && EndpointLe(s[i], e)
      invariant i <= |s| && forall j | 0 <= j < i :: EndpointLe(s[j], e)
    {
      i := i + 1;
    }
    r := s[..i] + [e] + s[i..];
    forall j | i <= j < |s| ensures EndpointLe(e, s[j]) {
      assert EndpointLe(e, s[i]);
    }
    assert forall x :: x in r <==> x in s || x == e;
  }

  method SortEndpoints(s: seq<Endpoint>) returns (r: seq<Endpoint>)
    ensures Ascending(r) && Elements(r) == Elements(s)
  {
    r := [];
    assert s[..0] == [];
    for i := 0 to |s|
      invariant Ascending(r) && Elements(r) == Elements(s[..i])
    {
      r := InsertEndpoint(r, s[i]);
      assert s[..i + 1] == s[..i] + [s[i]];
    }
    assert s[..|s|] == s;
  }

  /** Drops every element equal to the one before it. */
  method Dedup(s: seq<Endpoint>) returns (r: seq<Endpoint>)
    requires Ascending(s)
    ensures Increasing(EndpointLe, r) && Elements(r) == Elements(s)
  {
    hide EndpointLe;
    EndpointOrder();
    r := [];
    assert s[..0] == [];
    for i := 0 to |s|
      invariant Increasing(EndpointLe, r) && Elements(r) == Elements(s[..i])
      invariant if i == 0 then r == [] else r != [] && r[|r| - 1] == s[i - 1]
    {
      assert s[..i + 1] == s[..i] + [s[i]];
      ElementsSnoc(s[..i], s[i]);
      ElementsSnoc(r, s[i]);
      if r == [] || r[|r| - 1] != s[i] {
        DedupStep(r, s, i);
        r := r + [s[i]];
      } else {
        assert s[i] in Elements(r);
      }
    }
    assert s[..|s|] == s;
  }

  lemma DedupStep(r: seq<Endpoint>, s: seq<Endpoint>, i: nat)
    requires Ascending(s) && i < |s| && Increasing(EndpointLe, r)
    requires if i == 0 then r == [] else r != [] && r[|r| - 1] == s[i - 1] != s[i]
    ensures Increasing(EndpointLe, r + [s[i]])
  {
    hide EndpointLe;
    EndpointOrder();
    forall j | 0 <= j < |r| ensures EndpointLe(r[j], s[i]) && r[j] != s[i] {
      assert EndpointLe(s[i - 1], s[i]);
      if j < |r| - 1 {
        assert EndpointLe(r[j], r[|r| - 1]) && r[j] != r[|r| - 1];
      }
    }
  }

  ghost function SortedEndpoints(s: set<Endpoint>): (r: seq<Endpoint>)
    ensures Elements(r) == s && Increasing(EndpointLe, r) && |r| == |s|
  {
    EndpointOrder();
    Sorted(EndpointLe, s)
  }

  method DedupeEndpoints(endpoints: seq<Endpoint>) returns (r: seq<Endpoint>)
    ensures r == SortedEndpoints(Elements(endpoints))
  {
    var sorted := SortEndpoints(endpoints);
    r := Dedup(sorted);
    EndpointOrder();
    IncreasingUnique(EndpointLe, r, SortedEndpoints(Elements(endpoints)));
  }

  // ---------- the endpoints of a run ----------

  ghost function EndpointList(r: Resolver, spec: ProgramSpec, baseUrl: Str): (s: seq<Endpoint>)
    ensures Elements(s) == RequiredEndpoints(r, spec, baseUrl) && Increasing(EndpointLe, s)
  {
    SortedEndpoints(RequiredEndpoints(r, spec, baseUrl))
  }

  lemma MoreEndpoints(r: Resolver, spec: ProgramSpec, baseUrl: Str, names: set<Str>, k: Str)
    requires names <= spec.probes.Keys && k in spec.probes
    ensures ProbeEndpoints(r, spec, baseUrl, names + {k})
         == ProbeEndpoints(r, spec, baseUrl, names)
            + if Prechecked(spec.probes[k]) then {ProbeEndpoint(r, baseUrl, spec.probes[k])} else {}
  {
    hide ProbeEndpoint;
    var more := ProbeEndpoints(r, spec, baseUrl, names + {k});
    var some := ProbeEndpoints(r, spec, baseUrl, names);
    forall e
      ensures e in more
         <==> (e in some || (Prechecked(spec.probes[k]) && e == ProbeEndpoint(r, baseUrl, spec.probes[k])))
    {
      if e in more {
        var j :| j in names + {k} && Prechecked(spec.probes[j]) && e == ProbeEndpoint(r, baseUrl, spec.probes[j]);
      }
      if e in some {
        var j :| j in names && Prechecked(spec.probes[j]) && e == ProbeEndpoint(r, baseUrl, spec.probes[j]);
      }
    }
  }

  /** The probe table is walked in no particular order. */
  method CollectProbeEndpoints(r: Resolver, spec: ProgramSpec, baseUrl: Str) returns (out: seq<Endpoint>)
    ensures Elements(out) == ProbeEndpoints(r, spec, baseUrl, spec.probes.Keys)
  {
    hide ProbeEndpoint, ProbeEndpoints, Elements;
    out := [];
    var left := spec.probes.Keys;
    ghost var seen: set<Str> := {};
    NoEndpoints(r, spec, baseUrl);
    NothingIn();
    while left != {}
      invariant left + seen == spec.probes.Keys
      invariant Elements(out) == ProbeEndpoints(r, spec, baseUrl, seen)
      decreases |left|
    {
      var k :| k in left;
      MoreEndpoints(r, spec, baseUrl, seen, k);
      var kind := spec.probes[k];
      if Prechecked(kind) {
        ElementsSnoc(out, ProbeEndpoint(r, baseUrl, kind));
        out := out + [ProbeEndpoint(r, baseUrl, kind)];
      }
      left := left - {k};
      seen := seen + {k};
    }
    assert seen == spec.probes.Keys;
  }

  /** Sorting makes the result independent of the order of the walk. */
  method EndpointsForRun(r: Resolver, spec: ProgramSpec, baseUrl: Str) returns (endpoints: seq<Endpoint>)
    ensures endpoints == EndpointList(r, spec, baseUrl)
  {
    hide ProbeEndpoints, Elements, ScanTargetHostPort, HasHttp;
    var out := CollectProbeEndpoints(r, spec, baseUrl);
    var target := ScanTargetHostPort(r, baseUrl);
    if HasHttp(spec) && target.Some? {
      ElementsSnoc(out, target.value);
      out := out + [target.value];
    }
    endpoints := DedupeEndpoints(out);
  }

  lemma NothingIn()
    ensures Elements<Endpoint>([]) == {}
  {
  }

  lemma NoEndpoints(r: Resolver, spec: ProgramSpec, baseUrl: Str)
    ensures ProbeEndpoints(r, spec, baseUrl, {}) == {}
  {
  }

  // ---------- running the check ----------

  datatype PortCheck = PortCheck(host: Str, port: u16, open: bool)

  /** The k-th endpoint checked got the k-th answer. */
  function Checks(endpoints: seq<Endpoint>, answers: nat -> bool): seq<PortCheck> {
    seq(|endpoints|, k requires 0 <= k < |endpoints| => PortCheck(endpoints[k].0, endpoints[k].1, answers(k)))
  }

  /** Is `closed` the first endpoint found closed? */
  predicate IsFirstClosed(endpoints: seq<Endpoint>, answers: nat -> bool, closed: Option<Endpoint>) {
    match closed
    case None => forall k | 0 <= k < |endpoints| :: answers(k)
    case Some(e) => exists k | 0 <= k < |endpoints| ::
                      endpoints[k] == e && !answers(k) && forall j | 0 <= j < k :: answers(j)
  }

  /** Every endpoint is probed, also after one was found closed. */
  method CheckForRun(r: Resolver, spec: ProgramSpec, baseUrl: Str, answers: nat -> bool)
    returns (checks: seq<PortCheck>, firstClosed: Option<Endpoint>)
    ensures checks == Checks(EndpointList(r, spec, baseUrl), answers)
    ensures IsFirstClosed(EndpointList(r, spec, baseUrl), answers, firstClosed)
  {
    hide EndpointList;
    var endpoints := EndpointsForRun(r, spec, baseUrl);
    checks, firstClosed := [], None;
    for k := 0 to |endpoints|
      invariant checks == Checks(endpoints[..k], answers)
      invariant IsFirstClosed(endpoints[..k], answers, firstClosed)
    {
      var (host, port) := endpoints[k];
      var open := answers(k);
      checks := checks + [PortCheck(host, port, open)];
      assert endpoints[..k + 1] == endpoints[..k] + [endpoints[k]];
      if !open && firstClosed.None? {
        firstClosed := Some((host, port));
        assert endpoints[..k + 1][k] == (host, port);
      } else if firstClosed.Some? {
        var j :| 0 <= j < k && endpoints[..k][j] == firstClosed.value && !answers(j) && forall i | 0 <= i < j ::
            answers(i);
        assert endpoints[..k + 1][j] == firstClosed.value;
      }
    }
    assert endpoints[..|endpoints|] == endpoints;
  }

  /** At most one answer can be the first closed endpoint. */
  lemma FirstClosedUnique(endpoints: seq<Endpoint>, answers: nat -> bool, a: Option<Endpoint>, b: Option<Endpoint>)
    requires IsFirstClosed(endpoints, answers, a) && IsFirstClosed(endpoints, answers, b)
    ensures a == b
  {
    if a.Some? && b.Some? {
      var i :| 0 <= i < |endpoints| && endpoints[i] == a.value && !answers(i) && forall k | 0 <= k < i :: answers(k);
      var j :| 0 <= j < |endpoints| && endpoints[j] == b.value && !answers(j) && forall k | 0 <= k < j :: answers(k);
      assert i == j;
    }
  }
}
