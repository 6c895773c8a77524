/** Claims and mounts of a StatefulSet under construction (controllers/daisymanager/statefulset_util.go). */
module Mounts {
  import opened Commons
  import opened Names
  import opened Volumes

  datatype Dir = Dir(text: string)

  datatype Mount = Mount(name: Name, path: Dir)

  datatype Container = Container(name: Name, mounts: seq<Mount>)

  /** The known claim templates and their sizes; a template is filed under its own name. */
  type Templates = map<Name, int>

  const DATA_DIR := Dir("/var/lib/clickhouse")
  const LOG_DIR := Dir("/var/log/clickhouse-server")

  // ---- what the methods compute ----

  /** statefulSetAppendPVCTemplate. */
  function WithClaim(ts: Templates, claims: seq<Claim>, name: Name): seq<Claim>
  {
    if name !in ts || GetClaim(claims, name).Some? then claims else claims + [Claim(name, ts[name])]
  }

  function ScanMounts(ts: Templates, claims: seq<Claim>, ms: seq<Mount>): seq<Claim>
    decreases |ms|
  {
    if ms == [] then claims else ScanMounts(ts, WithClaim(ts, claims, ms[0].name), ms[1..])
  }

  /** setupStatefulSetApplyVolumeMounts. */
  function ScanContainers(ts: Templates, claims: seq<Claim>, cs: seq<Container>): seq<Claim>
    decreases |cs|
  {
    if cs == [] then claims else ScanContainers(ts, ScanMounts(ts, claims, cs[0].mounts), cs[1..])
  }

  /** GetContainerByName: the first container with the name. */
  function FindContainer(cs: seq<Container>, name: Name): (r: nat)
    ensures r <= |cs| && (r < |cs| ==> cs[r].name == name)
    ensures forall j | 0 <= j < r :: cs[j].name != name
  {
    FirstIndex(cs, (c: Container) => c.name == name)
  }

  predicate Wanted(ts: Templates, m: Mount)
  {
    m.path.text != "" && m.name.text != "" && m.name in ts
  }

  /** The name or the path is already taken. */
  predicate Taken(ms: seq<Mount>, m: Mount)
  {
    exists e | e in ms :: e.name == m.name || e.path == m.path
  }

  /** The mounts of a container once one was offered to it. */
  function With(ts: Templates, ms: seq<Mount>, m: Mount): seq<Mount>
  {
    if Wanted(ts, m) && !Taken(ms, m) then ms + [m] else ms
  }

  datatype Pod = Pod(containers: seq<Container>, claims: seq<Claim>)

  /** setupStatefulSetApplyVolumeMount. */
  function Offer(ts: Templates, pod: Pod, container: Name, m: Mount): (r: Pod)
    ensures |r.containers| == |pod.containers|
    ensures forall j | 0 <= j < |r.containers| :: r.containers[j].name == pod.containers[j].name
  {
    var i := FindContainer(pod.containers, container);
    if i == |pod.containers| || !Wanted(ts, m) || Taken(pod.containers[i].mounts, m) then pod
    else
      var c := pod.containers[i];
      Pod(pod.containers[i := c.(mounts := c.mounts + [m])], WithClaim(ts, pod.claims, m.name))
  }

  /** setupStatefulSetApplyVolumeClaimTemplates from the i-th container on. */
  function OfferFrom(ts: Templates, pod: Pod, i: nat, data: Mount, log: Mount): Pod
    decreases |pod.containers| - i
  {
    if i >= |pod.containers| then pod
    else
      var name := pod.containers[i].name;
      OfferFrom(ts, Offer(ts, Offer(ts, pod, name, data), name, log), i + 1, data, log)
  }

  function Setup(ts: Templates, cs: seq<Container>, data: Name, log: Name): Pod
  {
    OfferFrom(ts, Pod(cs, ScanContainers(ts, [], cs)), 0, Mount(data, DATA_DIR), Mount(log, LOG_DIR))
  }

  // ---- the methods ----

  class StatefulSetSpec {
    const templates: Templates
    var containers: seq<Container>
    var claims: seq<Claim>

    constructor (templates: Templates, containers: seq<Container>)
      ensures this.templates == templates && this.containers == containers && claims == []
    {
      this.templates := templates;
      this.containers := containers;
      claims := [];
    }

    method AppendPVCTemplate(name: Name)
      requires name in templates
      modifies this`claims
      ensures claims == WithClaim(templates, old(claims), name)
    {
      for i := 0 to |claims|
        invariant forall j | 0 <= j < i :: claims[j].name != name
      {
        if claims[i].name == name {
          return;
        }
      }
      claims := claims + [Claim(name, templates[name])];
    }

    method ApplyVolumeMounts()
      modifies this`claims
      ensures claims == ScanContainers(templates, old(claims), containers)
    {
      for i := 0 to |containers|
        invariant ScanContainers(templates, claims, containers[i..]) == ScanContainers(templates, old(claims), containers)
      {
        assert containers[i..][0] == containers[i] && containers[i..][1..] == containers[i + 1..];
        ApplyMountsOf(containers[i].mounts);
      }
      assert containers[|containers|..] == [];
    }

    /** The inner loop, over the mounts of one container. */
    method ApplyMountsOf(mounts: seq<Mount>)
      modifies this`claims
      ensures claims == ScanMounts(templates, old(claims), mounts)
    {
      for j := 0 to |mounts|
        invariant ScanMounts(templates, claims, mounts[j..]) == ScanMounts(templates, old(claims), mounts)
      {
        assert mounts[j..][0] == mounts[j] && mounts[j..][1..] == mounts[j + 1..];
        if mounts[j].name in templates {
          AppendPVCTemplate(mounts[j].name);
        }
      }
      assert mounts[|mounts|..] == [];
    }

    method ApplyVolumeMount(container: Name, m: Mount)
      modifies this
      ensures Pod(containers, claims) == Offer(templates, Pod(old(containers), old(claims)), container, m)
    {
      if m.path.text == "" || m.name.text == "" || m.name !in templates {
        return;
      }
      var at := FindContainer(containers, container);
      if at == |containers| {
        return;
      }
      var mounts := containers[at].mounts;
      for i := 0 to |mounts|
        invariant forall e | e in mounts[..i] :: e.name != m.name && e.path != m.path
      {
        if mounts[i].name == m.name || mounts[i].path == m.path {
          return;
        }
      }
      assert mounts[..|mounts|] == mounts;
      AppendPVCTemplate(m.name);
      containers := containers[at := containers[at].(mounts := mounts + [m])];
    }

    method ApplyVolumeClaimTemplates(data: Name, log: Name)
      modifies this
      ensures Pod(containers, claims)
              == OfferFrom(templates, Pod(old(containers), old(claims)), 0, Mount(data, DATA_DIR), Mount(log, LOG_DIR))
    {
      ghost var n := |containers|;
      for i := 0 to |containers|
        invariant |containers| == n
        invariant OfferFrom(templates, Pod(containers, claims), i, Mount(data, DATA_DIR), Mount(log, LOG_DIR))
                  == OfferFrom(templates, Pod(old(containers), old(claims)), 0, Mount(data, DATA_DIR), Mount(log, LOG_DIR))
      {
        var name := containers[i].name;
        ApplyVolumeMount(name, Mount(data, DATA_DIR));
        ApplyVolumeMount(name, Mount(log, LOG_DIR));
      }
    }

    /** setupStatefulSetVolumeClaimTemplates, for the names a replica gives as its data and log template. */
    method SetupVolumeClaimTemplates(data: Name, log: Name)
      requires claims == []
      modifies this
      ensures Pod(containers, claims) == Setup(templates, old(containers), data, log)
    {
      ApplyVolumeMounts();
      ApplyVolumeClaimTemplates(data, log);
    }
  }

  // ---- the claims are exactly the known templates that are mounted ----

  predicate MountedIn(cs: seq<Container>, name: Name)
  {
    exists c | c in cs :: NamedIn(c.mounts, name)
  }

  predicate NamedIn(ms: seq<Mount>, name: Name)
  {
    exists m | m in ms :: m.name == name
  }

  ghost predicate DistinctClaims(claims: seq<Claim>)
  {
    forall i, j :: 0 <= i < j < |claims| ==> claims[i].name != claims[j].name
  }

  predicate Claimed(claims: seq<Claim>, name: Name)
  {
    GetClaim(claims, name).Some?
  }

  /** Every claim is the copy of a template. */
  ghost predicate Copies(ts: Templates, claims: seq<Claim>)
  {
    forall c | c in claims :: c.name in ts && c.size == ts[c.name]
  }

  lemma WithClaimFacts(ts: Templates, claims: seq<Claim>, name: Name, q: Name)
    requires DistinctClaims(claims) && Copies(ts, claims)
    ensures var r := WithClaim(ts, claims, name);
      DistinctClaims(r) && Copies(ts, r) && (Claimed(r, q) <==> Claimed(claims, q) || (q == name && name in ts))
  {
    var r := WithClaim(ts, claims, name);
    if r != claims {
      assert r[|claims|] in r;
      assert forall c | c in claims :: c in r;
    }
  }

  lemma {:induction false} ScanMountsFacts(ts: Templates, claims: seq<Claim>, ms: seq<Mount>, q: Name)
    requires DistinctClaims(claims) && Copies(ts, claims)
    ensures var r := ScanMounts(ts, claims, ms);
      DistinctClaims(r) && Copies(ts, r) && (Claimed(r, q) <==> Claimed(claims, q) || (NamedIn(ms, q) && q in ts))
    decreases |ms|
  {
    if ms != [] {
      WithClaimFacts(ts, claims, ms[0].name, q);
      ScanMountsFacts(ts, WithClaim(ts, claims, ms[0].name), ms[1..], q);
      assert ms == [ms[0]] + ms[1..];
    }
  }

  lemma {:induction false} ScanContainersFacts(ts: Templates, claims: seq<Claim>, cs: seq<Container>, q: Name)
    requires DistinctClaims(claims) && Copies(ts, claims)
    ensures var r := ScanContainers(ts, claims, cs);
      DistinctClaims(r) && Copies(ts, r) && (Claimed(r, q) <==> Claimed(claims, q) || (MountedIn(cs, q) && q in ts))
    decreases |cs|
  {
    if cs != [] {
      ScanMountsFacts(ts, claims, cs[0].mounts, q);
      ScanContainersFacts(ts, ScanMounts(ts, claims, cs[0].mounts), cs[1..], q);
      MountedInFirst(cs, q);
    }
  }

  lemma MountedInFirst(cs: seq<Container>, q: Name)
    requires cs != []
    ensures MountedIn(cs, q) <==> NamedIn(cs[0].mounts, q) || MountedIn(cs[1..], q)
  {
    assert cs == [cs[0]] + cs[1..];
  }

  /** The claims are distinct copies of templates, and q is one of them exactly if it is a template that
      some container mounts. */
  ghost predicate ClaimsExact(ts: Templates, pod: Pod, q: Name)
  {
    DistinctClaims(pod.claims) && Copies(ts, pod.claims) && (Claimed(pod.claims, q) <==> q in ts && MountedIn(pod.containers, q))
  }

  lemma OfferKeepsClaimsExact(ts: Templates, pod: Pod, container: Name, m: Mount, q: Name)
    requires ClaimsExact(ts, pod, q)
    ensures ClaimsExact(ts, Offer(ts, pod, container, m), q)
  {
    var r := Offer(ts, pod, container, m);
    if r != pod {
      WithClaimFacts(ts, pod.claims, m.name, q);
      var i := FindContainer(pod.containers, container);
      MountedAfter(pod.containers, i, m, q);
    }
  }

  lemma MountedAfter(cs: seq<Container>, i: nat, m: Mount, q: Name)
    requires i < |cs|
    ensures var r := cs[i := cs[i].(mounts := cs[i].mounts + [m])];
      MountedIn(r, q) <==> MountedIn(cs, q) || q == m.name
  {
    var grown := cs[i].(mounts := cs[i].mounts + [m]);
    var r := cs[i := grown];
    assert r[i] == grown && grown in r && m in grown.mounts;
    if c :| c in cs && NamedIn(c.mounts, q) {
      var e :| e in c.mounts && e.name == q;
      var j :| 0 <= j < |cs| && cs[j] == c;
      assert r[j] in r && e in r[j].mounts;
    }
  }

  lemma {:induction false} OfferFromKeepsClaimsExact(ts: Templates, pod: Pod, i: nat, data: Mount, log: Mount, q: Name)
    requires ClaimsExact(ts, pod, q)
    ensures ClaimsExact(ts, OfferFrom(ts, pod, i, data, log), q)
    decreases |pod.containers| - i
  {
    if i < |pod.containers| {
      var name := pod.containers[i].name;
      var mid := Offer(ts, pod, name, data);
      OfferKeepsClaimsExact(ts, pod, name, data, q);
      OfferKeepsClaimsExact(ts, mid, name, log, q);
      OfferFromKeepsClaimsExact(ts, Offer(ts, mid, name, log), i + 1, data, log, q);
    }
  }

  /** The claims of the built set have pairwise distinct names, copy their templates, and are exactly the
      known templates that some of its containers mounts. */
  lemma SetupClaimsExact(ts: Templates, cs: seq<Container>, data: Name, log: Name, q: Name)
    ensures ClaimsExact(ts, Setup(ts, cs, data, log), q)
  {
    ScanContainersFacts(ts, [], cs, q);
    OfferFromKeepsClaimsExact(ts, Pod(cs, ScanContainers(ts, [], cs)), 0, Mount(data, DATA_DIR), Mount(log, LOG_DIR), q);
  }

  // ---- which containers get which mounts ----

  /** No earlier container has its name. */
  predicate First(cs: seq<Container>, i: nat)
    requires i < |cs|
  {
    FindContainer(cs, cs[i].name) == i
  }

  function Both(ts: Templates, c: Container, data: Mount, log: Mount): Container
  {
    c.(mounts := With(ts, With(ts, c.mounts, data), log))
  }

  lemma WithAgain(ts: Templates, ms: seq<Mount>, m: Mount, ns: seq<Mount>)
    requires forall e | e in With(ts, ms, m) :: e in ns
    ensures With(ts, ns, m) == ns
  {
    assert Wanted(ts, m) && !Taken(ms, m) ==> m in With(ts, ms, m);
  }

  lemma BothTwice(ts: Templates, c: Container, data: Mount, log: Mount)
    ensures Both(ts, Both(ts, c, data, log), data, log) == Both(ts, c, data, log)
  {
    var ns := Both(ts, c, data, log).mounts;
    WithAgain(ts, c.mounts, data, ns);
    WithAgain(ts, With(ts, c.mounts, data), log, ns);
  }

  lemma OfferOne(ts: Templates, pod: Pod, i: nat, data: Mount, log: Mount)
    requires i < |pod.containers|
    ensures var name := pod.containers[i].name;
      var f := FindContainer(pod.containers, name);
      Offer(ts, Offer(ts, pod, name, data), name, log).containers
      == pod.containers[f := Both(ts, pod.containers[f], data, log)]
  {
    var name := pod.containers[i].name;
    var f := FindContainer(pod.containers, name);
    var mid := Offer(ts, pod, name, data);
    assert FindContainer(mid.containers, name) == f;
    assert mid.containers == pod.containers[f := pod.containers[f].(mounts := With(ts, pod.containers[f].mounts, data))];
  }

  /** The containers once the first i have been gone through. */
  function OfferedBelow(ts: Templates, cs: seq<Container>, i: nat, data: Mount, log: Mount): seq<Container>
  {
    seq(|cs|, j requires 0 <= j < |cs| => if First(cs, j) && j < i then Both(ts, cs[j], data, log) else cs[j])
  }

  lemma FindSame(cs: seq<Container>, ds: seq<Container>, name: Name)
    requires |cs| == |ds| && forall j | 0 <= j < |cs| :: cs[j].name == ds[j].name
    ensures FindContainer(cs, name) == FindContainer(ds, name)
  {
    var i, j := FindContainer(cs, name), FindContainer(ds, name);
    assert i < |cs| ==> cs[i].name == ds[i].name;
    assert j < |cs| ==> cs[j].name == ds[j].name;
  }

  lemma ReachedStep(ts: Templates, cs: seq<Container>, pod: Pod, i: nat, data: Mount, log: Mount)
    requires i < |cs| && pod.containers == OfferedBelow(ts, cs, i, data, log)
    ensures var name := pod.containers[i].name;
      Offer(ts, Offer(ts, pod, name, data), name, log).containers == OfferedBelow(ts, cs, i + 1, data, log)
  {
    OfferOne(ts, pod, i, data, log);
    var name := cs[i].name;
    var f := FindContainer(cs, name);
    FindSame(cs, pod.containers, name);
    BothTwice(ts, cs[f], data, log);
    forall j | 0 <= j < |cs| && First(cs, j) && j != f
      ensures j != i
    {
    }
  }

  lemma {:induction false} OfferFromReaches(ts: Templates, cs: seq<Container>, pod: Pod, i: nat, data: Mount, log: Mount)
    requires i <= |cs| && pod.containers == OfferedBelow(ts, cs, i, data, log)
    ensures OfferFrom(ts, pod, i, data, log).containers == OfferedBelow(ts, cs, |cs|, data, log)
    decreases |cs| - i
  {
    if i < |cs| {
      ReachedStep(ts, cs, pod, i, data, log);
      var name := pod.containers[i].name;
      OfferFromReaches(ts, cs, Offer(ts, Offer(ts, pod, name, data), name, log), i + 1, data, log);
    }
  }

  /** Each container is offered the data mount and then the log mount once, except that of several
      containers with one name only the first is: it is found by its name. */
  lemma SetupMountsExact(ts: Templates, cs: seq<Container>, data: Name, log: Name, i: nat)
    requires i < |cs|
    ensures var r := Setup(ts, cs, data, log).containers;
      |r| == |cs| && r[i] == if First(cs, i) then Both(ts, cs[i], Mount(data, DATA_DIR), Mount(log, LOG_DIR)) else cs[i]
  {
    var pod := Pod(cs, ScanContainers(ts, [], cs));
    assert OfferedBelow(ts, cs, 0, Mount(data, DATA_DIR), Mount(log, LOG_DIR)) == cs;
    OfferFromReaches(ts, cs, pod, 0, Mount(data, DATA_DIR), Mount(log, LOG_DIR));
  }

  /** Two containers with one name and no mounts: the data goes to the first and never to the second. */
  lemma SecondOfTwoIsSkipped(name: Name, data: Name, size: int)
    requires data.text != ""
    ensures var c := Container(name, []);
      var r := Setup(map[data := size], [c, c], data, Name("")).containers;
      |r| == 2 && Mount(data, DATA_DIR) in r[0].mounts && r[1] == c
  {
    var c := Container(name, []);
    SetupMountsExact(map[data := size], [c, c], data, Name(""), 1);
    DataMountedIff(map[data := size], [c, c], data, Name(""), 0);
  }

  /** No two mounts have the same name or the same path. */
  ghost predicate AllDiffer(ms: seq<Mount>)
  {
    forall i, j :: 0 <= i < j < |ms| ==> ms[i].name != ms[j].name && ms[i].path != ms[j].path
  }

  lemma WithKeepsApart(ts: Templates, ms: seq<Mount>, m: Mount)
    requires AllDiffer(ms)
    ensures AllDiffer(With(ts, ms, m))
  {
    assert forall i | 0 <= i < |ms| :: ms[i] in ms;
  }

  /** The mounts a container came with stay first and in order, and if they did not clash nothing does. */
  lemma SetupKeepsMounts(ts: Templates, cs: seq<Container>, data: Name, log: Name, i: nat)
    requires i < |cs|
    ensures var r := Setup(ts, cs, data, log).containers;
      && |r| == |cs| && r[i].name == cs[i].name && cs[i].mounts <= r[i].mounts
      && |r[i].mounts| <= |cs[i].mounts| + 2
      && (AllDiffer(cs[i].mounts) ==> AllDiffer(r[i].mounts))
  {
    SetupMountsExact(ts, cs, data, log, i);
    if AllDiffer(cs[i].mounts) {
      WithKeepsApart(ts, cs[i].mounts, Mount(data, DATA_DIR));
      WithKeepsApart(ts, With(ts, cs[i].mounts, Mount(data, DATA_DIR)), Mount(log, LOG_DIR));
    }
  }

  /** A container ends up with its data mounted where ClickHouse keeps it exactly if it already had that
      mount, or it is the first with its name, the template is known and neither name nor path is taken. */
  lemma DataMountedIff(ts: Templates, cs: seq<Container>, data: Name, log: Name, i: nat)
    requires i < |cs|
    ensures var r, m := Setup(ts, cs, data, log).containers, Mount(data, Dir("/var/lib/clickhouse"));
      |r| == |cs| &&
      (m in r[i].mounts <==> m in cs[i].mounts || (First(cs, i) && data.text != "" && data in ts && !Taken(cs[i].mounts, m)))
  {
    SetupMountsExact(ts, cs, data, log, i);
    DirsApart();
  }

  lemma DirsApart()
    ensures DATA_DIR != LOG_DIR && DATA_DIR.text != "" && LOG_DIR.text != ""
  {
    assert DATA_DIR.text[6] != LOG_DIR.text[6];
  }

  /** The log mount also needs a template of its own: one template is never mounted twice. */
  lemma LogMountedIff(ts: Templates, cs: seq<Container>, data: Name, log: Name, i: nat)
    requires i < |cs|
    ensures var r, m := Setup(ts, cs, data, log).containers, Mount(log, Dir("/var/log/clickhouse-server"));
      |r| == |cs| &&
      (m in r[i].mounts <==> (m in cs[i].mounts ||
        (First(cs, i) && log.text != "" && log in ts && !Taken(cs[i].mounts, m) &&
         (log != data || Taken(cs[i].mounts, Mount(data, Dir("/var/lib/clickhouse")))))))
  {
    SetupMountsExact(ts, cs, data, log, i);
    DirsApart();
    var ms, d, m := cs[i].mounts, Mount(data, DATA_DIR), Mount(log, LOG_DIR);
    var mid := With(ts, ms, d);
    if mid != ms {
      assert mid[|ms|] == d;
      assert forall e | e in mid :: e in ms || e == d;
      assert forall e | e in ms :: e in mid;
      assert d in mid;
    }
    assert Taken(mid, m) <==> Taken(ms, m) || (mid != ms && log == data);
  }
}
