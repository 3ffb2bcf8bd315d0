/** What holds of the resolver, the revalidator and the matrix validator together. */
module RunSelectionTheorems {
  import opened Prelude
  import opened SupportMatrix
  import opened RunSelection

  // ----- Image variants --------------------------------------------------

  /** Every variant names a known provider, and no provider twice. */
  ghost predicate VariantsInOrder(variants: seq<ImageVariant>) {
    && (forall i :: 0 <= i < |variants| ==> ProviderIdOf(variants[i].provider).Some?)
    && (forall i, j :: 0 <= i < j < |variants| ==> variants[i].provider != variants[j].provider)
  }

  lemma {:induction false} VariantFaultMeans(variants: seq<ImageVariant>, i: nat)
    requires i <= |variants|
    requires forall k :: 0 <= k < i ==> !VariantFault(variants, k)
    ensures FirstVariantFault(variants, i).None? <==> VariantsInOrder(variants)
    ensures FirstVariantFault(variants, i) == Some(Ambiguous) ==>
              exists k, j :: 0 <= k < j < |variants| && variants[k].provider == variants[j].provider
    decreases |variants| - i
  {
    hide ProviderIdOf;
    if i == |variants| {
      forall k | 0 <= k < |variants|
        ensures ProviderIdOf(variants[k].provider).Some? && forall j :: 0 <= j < k ==>
                variants[j].provider != variants[k].provider
      {
        assert !VariantFault(variants, k);
      }
    } else if !VariantFault(variants, i) {
      VariantFaultMeans(variants, i + 1);
    }
  }

  // ----- Ambiguity -------------------------------------------------------

  /** With an accepted matrix and distinct variants a provider has at most one eligible pair. */
  lemma OnePairPerProvider(req: Request, v: nat, m: nat, v': nat, m': nat, p: ProviderId)
    requires ValidMatrix(req.matrix) && VariantsInOrder(req.image.variants)
    requires Eligible(req, v, p, m) && Eligible(req, v', p, m')
    ensures v == v' && m == m'
  {
    hide StageOf, TransportUsable, AcceleratorFor, ValidMatrix;
    assert req.image.variants[v].provider == req.image.variants[v'].provider;
    var k, k' := req.matrix[m].key, req.matrix[m'].key;
    assert k.(guestTransport := Ssh) == k'.(guestTransport := Ssh);
    SelectableRowUnique(req.matrix, m, m');
  }

  lemma LowestIsUnique(req: Request, v: nat, p: ProviderId, m: nat)
    requires ValidMatrix(req.matrix) && VariantsInOrder(req.image.variants) && Eligible(req, v, p, m)
    requires forall v': nat, p', m': nat :: Eligible(req, v', p', m') ==>
               NativeProviderRank(req.host.os, p) <= NativeProviderRank(req.host.os, p')
    ensures UniqueBest(req, v, p, m)
  {
    hide RowEligible, ValidMatrix;
    forall v': nat, p', m': nat | Eligible(req, v', p', m') && (v' != v || m' != m)
      ensures NativeProviderRank(req.host.os, p) < NativeProviderRank(req.host.os, p')
    {
      if p' == p {
        OnePairPerProvider(req, v, m, v', m', p);
      }
    }
  }

  lemma EligibleHasBest(req: Request, v: nat, p: ProviderId, m: nat) returns (v1: nat, p1: ProviderId, m1: nat)
    requires ValidMatrix(req.matrix) && VariantsInOrder(req.image.variants) && Eligible(req, v, p, m)
    ensures UniqueBest(req, v1, p1, m1)
  {
    hide RowEligible, ValidMatrix, UniqueBest;
    v1, p1, m1 := v, p, m;
    if v': nat, p', m': nat :|
      && Eligible(req, v', p', m')
      && NativeProviderRank(req.host.os, p') < NativeProviderRank(req.host.os, p) {
      v1, p1, m1 := v', p', m';
    }
    LowestIsUnique(req, v1, p1, m1);
  }

  /** For every accepted matrix the resolver answers `Ambiguous` exactly when the first
      fault of the image's variant list is a repeated provider: rows never cause it. */
  lemma AmbiguousOnlyForRepeatedProvider(req: Request)
    requires ValidMatrix(req.matrix)
    ensures Resolve(req) == Err(Ambiguous) <==>
              && ValidProbes(req.probes) && TcgIntentOk(req.intent) && !ImpossibleIntent(req.intent)
              && FirstVariantFault(req.image.variants, 0) == Some(Ambiguous)
    ensures Resolve(req) == Err(Ambiguous) ==>
              exists i, j :: 0 <= i < j < |req.image.variants|
                && req.image.variants[i].provider == req.image.variants[j].provider
  {
    hide Eligible, UniqueBest, ValidMatrix, ValidProbes, VariantsInOrder, FirstVariantFault, ImageOffers;
    hide RejectionsUpTo;
    VariantFaultMeans(req.image.variants, 0);
    if InputsInOrder(req) {
      if v: nat, p, m: nat :| Eligible(req, v, p, m) {
        var v1, p1, m1 := EligibleHasBest(req, v, p, m);
      }
    }
  }

  // ----- Order of the inputs ---------------------------------------------

  lemma ProbesReordered(a: seq<ProviderProbe>, b: seq<ProviderProbe>, to: seq<nat>, from: seq<nat>, name: string)
    requires Reorders(a, b, to, from) && ValidProbes(a)
    ensures ValidProbes(b) && FindProbe(b, name) == FindProbe(a, name)
  {
    hide ProbeConsistent;
    forall i, j | 0 <= i < j < |b|
      ensures b[i].name != b[j].name
    {
      assert from[to[i]] == i && from[to[j]] == j;
      assert to[i] != to[j];
    }
    if FindProbe(a, name).Some? {
      var k :| 0 <= k < |a| && a[k] == FindProbe(a, name).value;
      assert b[from[k]].name == name;
    }
    if FindProbe(b, name).Some? {
      var k :| 0 <= k < |b| && b[k] == FindProbe(b, name).value;
      FindProbeIs(a, to[k]);
    }
  }

  lemma VariantsReordered(a: seq<ImageVariant>, b: seq<ImageVariant>, to: seq<nat>, from: seq<nat>)
    requires Reorders(a, b, to, from) && VariantsInOrder(a)
    ensures VariantsInOrder(b)
  {
    hide ProviderIdOf;
    forall i, j | 0 <= i < j < |b|
      ensures b[i].provider != b[j].provider
    {
      assert from[to[i]] == i && from[to[j]] == j;
      assert to[i] != to[j];
    }
  }

  /** Same host, image identity and intent; probes, variants and rows in another order. */
  ghost predicate SameUpToOrder(a: Request, b: Request) {
    && a.host == b.host && a.intent == b.intent
    && b.image == a.image.(variants := b.image.variants)
    && multiset(a.probes) == multiset(b.probes)
    && multiset(a.image.variants) == multiset(b.image.variants)
    && multiset(a.matrix) == multiset(b.matrix)
  }

  lemma StageReordered(a: Request, b: Request, p: ProviderId)
    requires SameUpToOrder(a, b) && ValidProbes(a.probes)
    ensures StageOf(b, p) == StageOf(a, p)
  {
    var to, from := ReorderingExists(a.probes, b.probes);
    ProbesReordered(a.probes, b.probes, to, from, ProviderName(p));
    hide FindProbe, ValidProbes, ProviderName, GuestOsName, ArchitectureName, AcceleratorName;
  }

  lemma RowReordered(a: Request, b: Request, p: ProviderId, e: SupportMatrixEntry)
    requires SameUpToOrder(a, b) && ValidProbes(a.probes)
    ensures RowEligible(b, p, e) == RowEligible(a, p, e) && PlanFor(b, p, e) == PlanFor(a, p, e)
  {
    StageReordered(a, b, p);
    hide StageOf, ValidProbes, TransportUsable, SameUpToOrder;
    assert AcceleratorFor(b, p) == AcceleratorFor(a, p);
  }

  lemma PairReordered(a: Request, b: Request, v: nat, p: ProviderId, m: nat, tv: nat, tm: nat)
    requires SameUpToOrder(a, b) && ValidProbes(a.probes)
    requires v < |a.image.variants| && tv < |b.image.variants| && a.image.variants[v] == b.image.variants[tv]
    requires m < |a.matrix| && tm < |b.matrix| && a.matrix[m] == b.matrix[tm]
    ensures Eligible(a, v, p, m) == Eligible(b, tv, p, tm)
  {
    RowReordered(a, b, p, a.matrix[m]);
    hide RowEligible, ValidProbes, SameUpToOrder, PlanFor;
  }

  lemma InputsReordered(a: Request, b: Request)
    requires SameUpToOrder(a, b) && InputsInOrder(a)
    ensures InputsInOrder(b)
  {
    hide ProviderIdOf, FirstVariantFault, ProbeConsistent;
    var pt, pf := ReorderingExists(a.probes, b.probes);
    ProbesReordered(a.probes, b.probes, pt, pf, "");
    VariantFaultMeans(a.image.variants, 0);
    VariantFaultMeans(b.image.variants, 0);
    var vt, vf := ReorderingExists(a.image.variants, b.image.variants);
    VariantsReordered(a.image.variants, b.image.variants, vt, vf);
    if SelectedProvider(a.intent).Some? {
      var v :| 0 <= v < |a.image.variants| && ProviderIdOf(a.image.variants[v].provider) == SelectedProvider(a.intent);
      assert b.image.variants[vf[v]] == a.image.variants[v];
    }
  }

  /** A successful answer does not depend on the order of probes, variants or matrix rows. */
  lemma PlanIndependentOfOrder(a: Request, b: Request)
    requires SameUpToOrder(a, b) && Resolve(a).Ok?
    ensures Resolve(b) == Resolve(a)
  {
    hide RowEligible, VariantIs, ValidProbes, FirstVariantFault, ImageOffers, PlanFor, Resolve, TcgIntentOk;
    hide ImpossibleIntent;
    var v, p, m := PlanHasBest(a);
    InputsReordered(a, b);
    var vt, vf := ReorderingExists(a.image.variants, b.image.variants);
    var mt, mf := ReorderingExists(a.matrix, b.matrix);
    hide SameUpToOrder;
    assert Eligible(a, v, p, m);
    EligibleInRange(a, v, p, m);
    PairReordered(a, b, v, p, m, vf[v], mf[m]);
    forall v': nat, p', m': nat | Eligible(b, v', p', m') && (v' != vf[v] || m' != mf[m])
      ensures NativeProviderRank(b.host.os, p) < NativeProviderRank(b.host.os, p')
    {
      EligibleInRange(b, v', p', m');
      PairReordered(a, b, vt[v'], p', mt[m'], v', m');
      assert vt[v'] != v || mt[m'] != m;
    }
    SameHost(a, b);
    UniqueBestDecides(b, vf[v], p, mf[m]);
    RowReordered(a, b, p, a.matrix[m]);
  }

  lemma EligibleInRange(req: Request, v: nat, p: ProviderId, m: nat)
    requires Eligible(req, v, p, m)
    ensures v < |req.image.variants| && m < |req.matrix|
  {
  }

  lemma SameHost(a: Request, b: Request)
    requires SameUpToOrder(a, b)
    ensures a.host == b.host
  {
  }

  // ----- TCG -------------------------------------------------------------

  /** A plan uses software emulation exactly when it was explicitly requested, and then it was also allowed. */
  lemma TcgOnlyByOptIn(req: Request)
    requires Resolve(req).Ok?
    ensures Resolve(req).value.accelerator == Tcg <==> req.intent.explicitAccelerator == Some(RequestTcg)
    ensures Resolve(req).value.accelerator == Tcg <==> req.intent.allowTcg
  {
    hide UniqueBest, Resolve, InputsInOrder, Eligible;
    var v, p, m := PlanHasBest(req);
    BestIsEligible(req, v, p, m);
    InputsTcg(req);
    EligibleSelected(req, v, p, m);
  }

  /** A provider that reaches the matrix was selected or nothing was. */
  lemma EligibleSelected(req: Request, v: nat, p: ProviderId, m: nat)
    requires Eligible(req, v, p, m)
    ensures SelectedProvider(req.intent) == None || SelectedProvider(req.intent) == Some(p)
    ensures req.image.guestArch == req.host.architecture
  {
    hide RowMatches, VariantIs, TransportUsable, FindProbe;
    hide ProviderName, GuestOsName, ArchitectureName, AcceleratorName, AcceleratorFor;
  }

  lemma InputsTcg(req: Request)
    requires InputsInOrder(req)
    ensures TcgIntentOk(req.intent) && !ImpossibleIntent(req.intent)
  {
  }

  lemma BestIsEligible(req: Request, v: nat, p: ProviderId, m: nat)
    requires UniqueBest(req, v, p, m)
    ensures Eligible(req, v, p, m)
  {
    hide RowEligible, VariantIs;
  }

  // ----- Revalidation ----------------------------------------------------

  function CountVariants(variants: seq<ImageVariant>, p: ProviderId): nat {
    if variants == [] then 0
    else (if ProviderIdOf(variants[0].provider) == Some(p) then 1 else 0) + CountVariants(variants[1..], p)
  }

  function KeyOf(plan: Plan): SupportKey {
    SupportKey(plan.hostOs, plan.hostArchitecture, plan.provider, plan.accelerator, plan.guestOs,
      plan.guestArchitecture,
               plan.guestTransport)
  }

  predicate PlanMatches(plan: Plan, host: HostPlatform, image: ImageRecord, probe: ProviderProbe) {
    && plan.schemaVersion == RUN_PLAN_SCHEMA_VERSION
    && plan.contract == RUN_PLAN_CONTRACT
    && !plan.authorizing
    && plan.hostOs == host.os
    && plan.hostArchitecture == host.architecture
    && plan.image == image.id
    && plan.guestOs == image.guestOs
    && plan.guestArchitecture == image.guestArch
    && probe.name == ProviderName(plan.provider)
    && CountVariants(image.variants, plan.provider) == 1
  }

  /** The first objection to a plan, `None` when it may still be used. */
  ghost function Revalidate(plan: Plan, host: HostPlatform, image: ImageRecord, probe: ProviderProbe,
                            matrix: seq<SupportMatrixEntry>): Option<SelectionError>
  {
    var c := probe.capabilities;
    if !PlanMatches(plan, host, image, probe) then Some(PlanDrift)
    else if !ValidProbes([probe]) then Some(ContradictoryCapabilityEvidence)
    else if probe.status != Ready || !probe.available then Some(ProviderUnavailable)
    else if AcceleratorName(plan.accelerator) !in c.accelerators then Some(AcceleratorUnavailable)
    else if ArchitectureName(plan.guestArchitecture) !in c.guestArch then Some(ArchitectureMismatch)
    else if GuestOsName(plan.guestOs) !in c.guestOs || !TransportUsable(probe, plan.guestTransport)
      then Some(UnsupportedGuestTransport)
    else
      var entry := SupportFor(matrix, KeyOf(plan));
      if entry.None? then Some(UndocumentedCombination)
      else if entry.value.status == Unsupported then Some(UnsupportedCombination)
      else if entry.value.status != plan.supportStatus then Some(PlanDrift)
      else None
  }

  lemma {:induction false} CountVariantsZero(variants: seq<ImageVariant>, p: ProviderId)
    ensures CountVariants(variants, p) == 0 <==> forall i :: 0 <= i < |variants| ==>
            ProviderIdOf(variants[i].provider) != Some(p)
    decreases |variants|
  {
    hide ProviderIdOf;
    if variants != [] {
      CountVariantsZero(variants[1..], p);
      assert forall i :: 1 <= i < |variants| ==> variants[i] == variants[1..][i - 1];
    }
  }

  lemma {:induction false} CountVariantsOne(variants: seq<ImageVariant>, v: nat, p: ProviderId)
    requires VariantsInOrder(variants) && v < |variants| && ProviderIdOf(variants[v].provider) == Some(p)
    ensures CountVariants(variants, p) == 1
    decreases v
  {
    var rest := variants[1..];
    assert VariantsInOrder(rest);
    if v == 0 {
      forall i | 0 <= i < |rest|
        ensures ProviderIdOf(rest[i].provider) != Some(p)
      {
        assert rest[i] == variants[i + 1];
      }
      CountVariantsZero(rest, p);
    } else {
      assert variants[0].provider != variants[v].provider;
      CountVariantsOne(rest, v - 1, p);
    }
  }

  /** What reaching the matrix says about the probe. */
  lemma AtRowsMeans(req: Request, p: ProviderId)
    requires StageOf(req, p).AtRows?
    ensures var probe := StageOf(req, p).probe;
            && FindProbe(req.probes, ProviderName(p)) == Some(probe)
            && probe.name == ProviderName(p) && probe.status == Ready && probe.available
            && GuestOsName(req.image.guestOs) in probe.capabilities.guestOs
            && ArchitectureName(req.image.guestArch) in probe.capabilities.guestArch
            && AcceleratorName(AcceleratorFor(req, p)) in probe.capabilities.accelerators
  {
    hide ProviderName, GuestOsName, ArchitectureName, AcceleratorName, AcceleratorFor;
  }

  lemma SingleProbeValid(probes: seq<ProviderProbe>, name: string)
    requires ValidProbes(probes) && FindProbe(probes, name).Some?
    ensures ValidProbes([FindProbe(probes, name).value])
  {
    hide ProbeConsistent;
  }

  lemma EligibleRevalidates(req: Request, v: nat, p: ProviderId, m: nat)
    requires ValidMatrix(req.matrix) && ValidProbes(req.probes) && VariantsInOrder(req.image.variants)
             && Eligible(req, v, p, m)
    ensures var probe := FindProbe(req.probes, ProviderName(p));
            probe.Some? && Revalidate(PlanFor(req, p, req.matrix[m]), req.host, req.image, probe.value, req.matrix) ==
              None
  {
    AtRowsMeans(req, p);
    SingleProbeValid(req.probes, ProviderName(p));
    CountVariantsOne(req.image.variants, v, p);
    SupportForFinds(req.matrix, m);
    hide StageOf, ValidMatrix, ValidProbes, VariantsInOrder, CountVariants, SupportFor, FindProbe, AcceleratorFor;
    hide ProviderName, GuestOsName, ArchitectureName, AcceleratorName, TransportUsable;
    assert KeyOf(PlanFor(req, p, req.matrix[m])) == req.matrix[m].key;
  }

  /** Every plan the resolver returns passes revalidation on the same host, image and provider probe. */
  lemma ResolvedPlanRevalidates(req: Request)
    requires ValidMatrix(req.matrix) && Resolve(req).Ok?
    ensures var plan := Resolve(req).value;
            var probe := FindProbe(req.probes, ProviderName(plan.provider));
            probe.Some? && Revalidate(plan, req.host, req.image, probe.value, req.matrix) == None
  {
    hide UniqueBest, Resolve, FirstVariantFault, ImageOffers, ValidMatrix, ValidProbes, VariantsInOrder, Eligible;
    hide Revalidate, FindProbe;
    var v, p, m := PlanHasBest(req);
    BestIsEligible(req, v, p, m);
    VariantFaultMeans(req.image.variants, 0);
    EligibleRevalidates(req, v, p, m);
  }

  /** In particular for the matrix the program ships. */
  lemma ProductionPlanRevalidates(req: Request)
    requires req.matrix == SUPPORT_MATRIX && Resolve(req).Ok?
    ensures var plan := Resolve(req).value;
            var probe := FindProbe(req.probes, ProviderName(plan.provider));
            probe.Some? && Revalidate(plan, req.host, req.image, probe.value, SUPPORT_MATRIX) == None
  {
    ProductionMatrixValid();
    ResolvedPlanRevalidates(req);
  }

  // ----- The shipped matrix yields plans ---------------------------------

  function HyperVProbe(): ProviderProbe {
    ProviderProbe("hyperv", Ready, true,
                  Capabilities(AUTOMATION_SCHEMA_VERSION, true, true, true, ["hyper-v"], ["windows"], ["x86_64"],
                    ["powershell-direct"], true))
  }

  function WindowsRequest(matrix: seq<SupportMatrixEntry>): Request {
    Request(HostPlatform(WindowsHost, X86_64), ImageRecord("image", WindowsGuest, X86_64, [ImageVariant("hyperv", "")]),
            [HyperVProbe()], Intent(None, None, None, false), matrix)
  }

  lemma WindowsRequestEligible(matrix: seq<SupportMatrixEntry>)
    requires matrix != [] && matrix[0] == DeclaredRow(0)
    ensures Eligible(WindowsRequest(matrix), 0, Hyperv, 0)
  {
    var req := WindowsRequest(matrix);
    assert FindProbe(req.probes, "hyperv") == Some(HyperVProbe());
    assert StageOf(req, Hyperv) == AtRows(HyperVProbe());
  }

  lemma WindowsRequestInOrder(matrix: seq<SupportMatrixEntry>)
    ensures InputsInOrder(WindowsRequest(matrix)) && VariantsInOrder(WindowsRequest(matrix).image.variants)
  {
    var req := WindowsRequest(matrix);
    assert FirstVariantFault(req.image.variants, 1).None?;
    assert !VariantFault(req.image.variants, 0);
  }

  /** With the shipped matrix a Windows host with Hyper-V ready resolves a Windows image: there are plans to speak
      of. */
  lemma WindowsRequestResolves(matrix: seq<SupportMatrixEntry>)
    requires matrix == SUPPORT_MATRIX
    ensures Resolve(WindowsRequest(matrix)).Ok?
  {
    ProductionMatrixValid();
    assert matrix[0] == DeclaredRow(0);
    WindowsRequestEligible(matrix);
    WindowsRequestInOrder(matrix);
    var req := WindowsRequest(matrix);
    hide WindowsRequest, Eligible, InputsInOrder, ValidMatrix, VariantsInOrder, Resolve, UniqueBest;
    var v, p, m := EligibleHasBest(req, 0, Hyperv, 0);
    UniqueBestDecides(req, v, p, m);
  }

  // ----- Revalidation and resolution agree -------------------------------

  /** The intent that asks for exactly this plan's provider and accelerator. */
  function IntentNaming(plan: Plan): Intent {
    match plan.provider
    case Hyperv => Intent(Some(Hyperv), None, None, false)
    case Qemu =>
      var requested := match plan.accelerator
        case HyperV => Auto
        case Whpx => RequestWhpx
        case Kvm => RequestKvm
        case Hvf => RequestHvf
        case Tcg => RequestTcg;
      Intent(Some(Qemu), None, Some(requested), plan.accelerator == Tcg)
  }

  /** The accepted matrix row behind a revalidated plan. */
  lemma RevalidatedRow(plan: Plan, host: HostPlatform, image: ImageRecord, probe: ProviderProbe,
                       matrix: seq<SupportMatrixEntry>)
    returns (m: nat)
    requires ValidMatrix(matrix) && Revalidate(plan, host, image, probe, matrix).None?
    ensures m < |matrix| && matrix[m].key == KeyOf(plan) && matrix[m].status == plan.supportStatus != Unsupported
    ensures CombinationIsPossible(KeyOf(plan))
  {
    hide ValidProbes, TransportUsable, PlanMatches, GuestOsName, ArchitectureName, AcceleratorName;
    var entry := SupportFor(matrix, KeyOf(plan)).value;
    m :| 0 <= m < |matrix| && matrix[m] == entry;
    assert RowAdmissible(matrix[m]);
  }

  lemma {:induction false} CountedVariant(variants: seq<ImageVariant>, p: ProviderId) returns (v: nat)
    requires CountVariants(variants, p) > 0
    ensures v < |variants| && ProviderIdOf(variants[v].provider) == Some(p)
    decreases |variants|
  {
    if ProviderIdOf(variants[0].provider) == Some(p) {
      v := 0;
    } else {
      v := CountedVariant(variants[1..], p);
      v := v + 1;
    }
  }

  lemma RevalidatedStage(plan: Plan, req: Request, probe: ProviderProbe)
    requires Revalidate(plan, req.host, req.image, probe, req.matrix).None?
    requires req.probes == [probe] && req.intent == IntentNaming(plan) && req.image.guestArch == req.host.architecture
    requires AcceleratorFor(req, plan.provider) == plan.accelerator
    ensures StageOf(req, plan.provider) == AtRows(probe)
  {
    hide CountVariants, ValidProbes, SupportFor, TransportUsable, AcceleratorFor;
    hide ProviderName, GuestOsName, ArchitectureName, AcceleratorName;
    assert FindProbe([probe], probe.name) == Some(probe);
  }

  /** Asked for a revalidated plan's own provider and accelerator, the resolver returns the plan
      again exactly when host and guest architectures agree and the image's variants are known
      providers, none twice: revalidation looks only at the variants of the plan's provider. */
  lemma RevalidatedPlanResolves(plan: Plan, host: HostPlatform, image: ImageRecord, probe: ProviderProbe,
                                matrix: seq<SupportMatrixEntry>)
    requires ValidMatrix(matrix) && Revalidate(plan, host, image, probe, matrix).None?
    ensures Resolve(Request(host, image, [probe], IntentNaming(plan), matrix)) ==
            Ok(plan.(selectionSource := ExplicitCli))
            <==> image.guestArch == host.architecture && VariantsInOrder(image.variants)
  {
    var req := Request(host, image, [probe], IntentNaming(plan), matrix);
    var m := RevalidatedRow(plan, host, image, probe, matrix);
    hide Revalidate, ValidMatrix, VariantsInOrder, Resolve, StageOf, CombinationIsPossible, AcceleratorFor, KeyOf;
    NamedAccelerator(plan, req);
    if image.guestArch == host.architecture && VariantsInOrder(image.variants) {
      RevalidatedStage(plan, req, probe);
      RevalidatedIsBest(plan, req, probe, m);
    } else {
      ResolvedArchitecture(req);
      ResolvedVariants(req);
    }
  }

  /** The resolver never accepts an image with an unknown or repeated provider. */
  lemma ResolvedVariants(req: Request)
    ensures Resolve(req).Ok? ==> VariantsInOrder(req.image.variants)
  {
    hide UniqueBest, Eligible, ValidProbes, FirstVariantFault, VariantsInOrder, ImageOffers, RejectionsUpTo;
    VariantFaultMeans(req.image.variants, 0);
  }

  /** No declared row pairs two architectures, so with the shipped matrix revalidation implies that they agree... */
  lemma ProductionArchitecturesAgree(plan: Plan, host: HostPlatform, image: ImageRecord, probe: ProviderProbe,
                                     matrix: seq<SupportMatrixEntry>)
    requires matrix == SUPPORT_MATRIX && Revalidate(plan, host, image, probe, matrix).None?
    ensures image.guestArch == host.architecture
  {
    ProductionMatrixValid();
    assert forall k :: 0 <= k < |matrix| ==> matrix[k] == DeclaredRow(k);
    hide ValidMatrix, CombinationIsPossible;
    var m := RevalidatedRow(plan, host, image, probe, matrix);
    DeclaredArchitectures(m);
    hide DeclaredRow, ValidProbes, SupportFor, TransportUsable, CountVariants;
    assert matrix[m].key == KeyOf(plan);
  }

  lemma DeclaredArchitectures(k: nat)
    ensures DeclaredRow(k).key.hostArchitecture == X86_64 && DeclaredRow(k).key.guestArchitecture == X86_64
  {
  }

  /** ...and what the resolver asks beyond revalidation is exactly the order of the variants. */
  lemma ProductionRevalidatedResolves(plan: Plan, host: HostPlatform, image: ImageRecord, probe: ProviderProbe,
                                      matrix: seq<SupportMatrixEntry>)
    requires matrix == SUPPORT_MATRIX && Revalidate(plan, host, image, probe, matrix).None?
    ensures Resolve(Request(host, image, [probe], IntentNaming(plan), matrix)) ==
            Ok(plan.(selectionSource := ExplicitCli))
            <==> VariantsInOrder(image.variants)
  {
    ProductionMatrixValid();
    hide Revalidate, ValidMatrix, VariantsInOrder, Resolve;
    ProductionArchitecturesAgree(plan, host, image, probe, matrix);
    RevalidatedPlanResolves(plan, host, image, probe, matrix);
  }

  function KvmProbe(): ProviderProbe {
    ProviderProbe("qemu", Ready, true,
                  Capabilities(AUTOMATION_SCHEMA_VERSION, true, true, true, ["kvm"], ["linux"], ["x86_64"], ["qga"],
                    true))
  }

  function LinuxImage(variants: seq<ImageVariant>): ImageRecord { ImageRecord("image", LinuxGuest, X86_64, variants) }

  function KvmPlan(): Plan {
    Plan(RUN_PLAN_SCHEMA_VERSION, RUN_PLAN_CONTRACT, "image", LinuxHost, X86_64, LinuxGuest, X86_64, Qemu, Kvm, Qga,
      Untested,
         ExplicitCli, false)
  }

  lemma KvmPlanRevalidates(variants: seq<ImageVariant>, matrix: seq<SupportMatrixEntry>)
    requires CountVariants(variants, Qemu) == 1
    requires SupportFor(matrix, KeyOf(KvmPlan())) == Some(DeclaredRow(7))
    ensures Revalidate(KvmPlan(), HostPlatform(LinuxHost, X86_64), LinuxImage(variants), KvmProbe(), matrix).None?
  {
    assert ValidProbes([KvmProbe()]);
    hide SupportFor, CountVariants, ValidProbes;
  }

  /** A plan whose image also lists an unknown provider: revalidated, but never resolved. */
  lemma UnknownVariantRevalidates(matrix: seq<SupportMatrixEntry>)
    requires matrix == SUPPORT_MATRIX
    ensures var host, image := HostPlatform(LinuxHost, X86_64),
            LinuxImage([ImageVariant("qemu", ""), ImageVariant("other", "")]);
            && Revalidate(KvmPlan(), host, image, KvmProbe(), matrix).None?
            && Resolve(Request(host, image, [KvmProbe()], IntentNaming(KvmPlan()), matrix)).Err?
  {
    var variants := [ImageVariant("qemu", ""), ImageVariant("other", "")];
    assert variants[1..] == [ImageVariant("other", "")] && CountVariants(variants[1..], Qemu) == 0;
    ProductionMatrixValid();
    assert matrix[7] == DeclaredRow(7);
    SupportForFinds(matrix, 7);
    hide SupportFor, ValidMatrix, Resolve, Revalidate;
    assert DeclaredRow(7).key == KeyOf(KvmPlan());
    KvmPlanRevalidates(variants, matrix);
    var req := Request(HostPlatform(LinuxHost, X86_64), LinuxImage(variants), [KvmProbe()], IntentNaming(KvmPlan()),
        matrix);
    assert ProviderIdOf(req.image.variants[1].provider).None?;
    ResolvedVariants(req);
  }

  /** The resolver never pairs different architectures. */
  lemma ResolvedArchitecture(req: Request)
    ensures Resolve(req).Ok? ==> req.image.guestArch == req.host.architecture
  {
    if Resolve(req).Ok? {
      hide UniqueBest, Resolve, InputsInOrder, Eligible;
      var v, p, m := PlanHasBest(req);
      BestIsEligible(req, v, p, m);
      EligibleSelected(req, v, p, m);
    }
  }

  lemma NamedAccelerator(plan: Plan, req: Request)
    requires CombinationIsPossible(KeyOf(plan)) && req.intent == IntentNaming(plan)
    ensures AcceleratorFor(req, plan.provider) == plan.accelerator
  {
  }

  lemma RevalidatedInputs(plan: Plan, req: Request, probe: ProviderProbe, v: nat)
    requires Revalidate(plan, req.host, req.image, probe, req.matrix).None? && VariantsInOrder(req.image.variants)
    requires req.probes == [probe] && req.intent == IntentNaming(plan) && VariantIs(req, v, plan.provider)
    ensures InputsInOrder(req)
  {
    VariantFaultMeans(req.image.variants, 0);
    hide ValidProbes, FirstVariantFault, VariantsInOrder, PlanMatches, ProviderIdOf, SupportFor, TransportUsable;
    hide ProviderName, GuestOsName, ArchitectureName, AcceleratorName;
  }

  lemma RevalidatedIsBest(plan: Plan, req: Request, probe: ProviderProbe, m: nat)
    requires ValidMatrix(req.matrix) && VariantsInOrder(req.image.variants)
    requires Revalidate(plan, req.host, req.image, probe, req.matrix).None?
    requires req.probes == [probe] && req.intent == IntentNaming(plan)
    requires StageOf(req, plan.provider) == AtRows(probe) && AcceleratorFor(req, plan.provider) == plan.accelerator
    requires m < |req.matrix| && req.matrix[m].key == KeyOf(plan)
             && req.matrix[m].status == plan.supportStatus != Unsupported
    ensures Resolve(req) == Ok(plan.(selectionSource := ExplicitCli))
  {
    var v := CountedVariant(req.image.variants, plan.provider);
    hide Eligible, ValidMatrix, VariantsInOrder, InputsInOrder, CountVariants, Resolve, PlanFor, ValidProbes, StageOf;
    hide UniqueBest, SupportFor, TransportUsable;
    hide ProviderName, GuestOsName, ArchitectureName, AcceleratorName;
    RevalidatedInputs(plan, req, probe, v);
    RevalidatedEligible(plan, req, probe, v, m);
    forall v': nat, p', m': nat | Eligible(req, v', p', m')
      ensures p' == plan.provider
    {
      EligibleSelected(req, v', p', m');
    }
    LowestIsUnique(req, v, plan.provider, m);
    UniqueBestDecides(req, v, plan.provider, m);
  }

  lemma RevalidatedEligible(plan: Plan, req: Request, probe: ProviderProbe, v: nat, m: nat)
    requires Revalidate(plan, req.host, req.image, probe, req.matrix).None? && req.intent == IntentNaming(plan)
    requires StageOf(req, plan.provider) == AtRows(probe) && AcceleratorFor(req, plan.provider) == plan.accelerator
    requires m < |req.matrix| && req.matrix[m].key == KeyOf(plan)
             && req.matrix[m].status == plan.supportStatus != Unsupported
    requires VariantIs(req, v, plan.provider)
    ensures Eligible(req, v, plan.provider, m)
    ensures PlanFor(req, plan.provider, req.matrix[m]) == plan.(selectionSource := ExplicitCli)
  {
    hide StageOf, AcceleratorFor, VariantIs, CountVariants, ValidProbes, SupportFor;
    hide ProviderName, GuestOsName, ArchitectureName, AcceleratorName, TransportName;
  }
}
