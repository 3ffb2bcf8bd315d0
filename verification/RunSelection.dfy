/** Selection and revalidation of one execution plan (`src/core/run_selection.rs`). */
module RunSelection {
  import opened Prelude
  import opened SupportMatrix
  import opened RankedChoice

  const AUTOMATION_SCHEMA_VERSION := 1
  const RUN_PLAN_SCHEMA_VERSION := 1
  const RUN_PLAN_CONTRACT := "vmcell.run-plan.v1"

  datatype HostPlatform = HostPlatform(os: HostOs, architecture: Architecture)
  datatype RequestedAccelerator = Auto | RequestWhpx | RequestKvm | RequestHvf | RequestTcg
  datatype Intent = Intent(
    explicitProvider: Option<ProviderId>,
    configProviderPreference: Option<ProviderId>,
    explicitAccelerator: Option<RequestedAccelerator>,
    allowTcg: bool)
  datatype SelectionSource = ExplicitCli | ConfigPreference | NativeDefault

  datatype ProbeStatus = Ready | UnsupportedHost | Unavailable | ProbeFailed
  datatype Capabilities = Capabilities(
    schemaVersion: nat,
    fullSystemVm: bool,
    cowOverlay: bool,
    hardwareAcceleration: bool,
    accelerators: seq<string>,
    guestOs: seq<string>,
    guestArch: seq<string>,
    guestTransports: seq<string>,
    networklessGuestExec: bool)
  datatype ProviderProbe = ProviderProbe(name: string, status: ProbeStatus, available: bool, capabilities: Capabilities)

  /** `source` stands for the variant's disk format, path, digest and size. */
  datatype ImageVariant = ImageVariant(provider: string, source: string)
  datatype ImageRecord = ImageRecord(id: string, guestOs: GuestOs, guestArch: Architecture, variants: seq<ImageVariant>)

  datatype Plan = Plan(
    schemaVersion: nat,
    contract: string,
    image: string,
    hostOs: HostOs,
    hostArchitecture: Architecture,
    guestOs: GuestOs,
    guestArchitecture: Architecture,
    provider: ProviderId,
    accelerator: Accelerator,
    guestTransport: GuestTransport,
    supportStatus: SupportStatus,
    selectionSource: SelectionSource,
    authorizing: bool)

  datatype SelectionError =
    | Ambiguous
    | IncompatibleImageVariant
    | ProviderUnavailable
    | AcceleratorUnavailable
    | ArchitectureMismatch
    | UnsupportedGuestTransport
    | ContradictoryCapabilityEvidence
    | UndocumentedCombination
    | UnsupportedCombination
    | TcgRequiresExplicitOptIn
    | ImpossibleProviderAccelerator
    | PlanDrift

  /** Everything the resolver is given. */
  datatype Request = Request(
    host: HostPlatform,
    image: ImageRecord,
    probes: seq<ProviderProbe>,
    intent: Intent,
    matrix: seq<SupportMatrixEntry>)

  // ----- Names -----------------------------------------------------------

  function ProviderIdOf(name: string): Option<ProviderId> {
    if name == "hyperv" then Some(Hyperv) else if name == "qemu" then Some(Qemu) else None
  }

  function ProviderName(p: ProviderId): string {
    match p case Hyperv => "hyperv" case Qemu => "qemu"
  }

  function AcceleratorName(a: Accelerator): string {
    match a case HyperV => "hyper-v" case Whpx => "whpx" case Kvm => "kvm" case Hvf => "hvf" case Tcg => "tcg"
  }

  function TransportName(t: GuestTransport): string {
    match t case PowerShellDirect => "powershell-direct" case Qga => "qga" case Ssh => "ssh"
  }

  function GuestOsName(g: GuestOs): string {
    match g case WindowsGuest => "windows" case LinuxGuest => "linux" case MacosGuest => "macos"
  }

  function ArchitectureName(a: Architecture): string {
    match a case X86_64 => "x86_64" case Aarch64 => "aarch64"
  }

  // ----- Probe evidence --------------------------------------------------

  const UNAVAILABLE := Capabilities(AUTOMATION_SCHEMA_VERSION, false, false, false, [], [], [], [], false)

  ghost predicate Distinct<T>(s: seq<T>) {
    forall i, j :: 0 <= i < j < |s| ==> s[i] != s[j]
  }

  predicate Within(values: seq<string>, vocabulary: set<string>) {
    forall i :: 0 <= i < |values| ==> values[i] in vocabulary
  }

  /** One probe agrees with itself. */
  ghost predicate ProbeConsistent(probe: ProviderProbe) {
    var c := probe.capabilities;
    && ProviderIdOf(probe.name).Some?
    && probe.available == (probe.status == Ready)
    && (probe.status != Ready ==> c == UNAVAILABLE)
    && (probe.status == Ready ==>
          && c.schemaVersion == AUTOMATION_SCHEMA_VERSION && c.fullSystemVm && c.cowOverlay
          && Distinct(c.accelerators) && Distinct(c.guestOs) && Distinct(c.guestArch) && Distinct(c.guestTransports)
          && Within(c.accelerators, {"hyper-v", "whpx", "kvm", "hvf", "tcg"})
          && Within(c.guestOs, {"windows", "linux", "macos"})
          && Within(c.guestArch, {"x86_64", "aarch64"})
          && Within(c.guestTransports, {"powershell-direct", "qga", "ssh"})
          && match ProviderIdOf(probe.name).value
             case Hyperv => c.accelerators == ["hyper-v"] && c.hardwareAcceleration
             case Qemu =>
               && "hyper-v" !in c.accelerators
               && c.hardwareAcceleration ==
                  ("hyper-v" in c.accelerators || "whpx" in c.accelerators || "kvm" in c.accelerators
                    || "hvf" in c.accelerators))
  }

  ghost predicate ValidProbes(probes: seq<ProviderProbe>) {
    && (forall i :: 0 <= i < |probes| ==> ProbeConsistent(probes[i]))
    && (forall i, j :: 0 <= i < j < |probes| ==> probes[i].name != probes[j].name)
  }

  method HasDuplicates(values: seq<string>) returns (r: bool)
    ensures r <==> !Distinct(values)
  {
    var unique: set<string> := {};
    for i := 0 to |values|
      invariant unique == set j | 0 <= j < i :: values[j]
      invariant Distinct(values[..i])
    {
      if values[i] in unique {
        return true;
      }
      unique := unique + {values[i]};
      assert values[..i + 1] == values[..i] + [values[i]];
    }
    assert values[..|values|] == values;
    return false;
  }

  method ReadyCapabilitiesConsistent(provider: ProviderId, probe: ProviderProbe) returns (ok: bool)
    requires ProviderIdOf(probe.name) == Some(provider) && probe.status == Ready && probe.available
    ensures ok <==> ProbeConsistent(probe)
  {
    var c := probe.capabilities;
    var d1 := HasDuplicates(c.accelerators);
    var d2 := HasDuplicates(c.guestOs);
    var d3 := HasDuplicates(c.guestArch);
    var d4 := HasDuplicates(c.guestTransports);
    if || c.schemaVersion != AUTOMATION_SCHEMA_VERSION || !c.fullSystemVm || !c.cowOverlay
       || d1 || d2 || d3 || d4
       || !Within(c.accelerators, {"hyper-v", "whpx", "kvm", "hvf", "tcg"})
       || !Within(c.guestOs, {"windows", "linux", "macos"})
       || !Within(c.guestArch, {"x86_64", "aarch64"})
       || !Within(c.guestTransports, {"powershell-direct", "qga", "ssh"})
    {
      return false;
    }
    var hardware := "hyper-v" in c.accelerators || "whpx" in c.accelerators || "kvm" in c.accelerators
        || "hvf" in c.accelerators;
    ok := match provider
      case Hyperv => c.accelerators == ["hyper-v"] && c.hardwareAcceleration
      case Qemu => "hyper-v" !in c.accelerators && c.hardwareAcceleration == hardware;
  }

  method ValidateProbeSnapshots(probes: seq<ProviderProbe>) returns (ok: bool)
    ensures ok <==> ValidProbes(probes)
  {
    var providers: set<nat> := {};
    for i := 0 to |probes|
      invariant ValidProbes(probes[..i])
      invariant forall p :: ProviderRank(p) in providers <==> exists j ::
                0 <= j < i && probes[j].name == ProviderName(p)
    {
      var probe := probes[i];
      ghost var before := probes[..i];
      assert forall j :: 0 <= j < i ==> before[j] == probes[j];
      assert probes[..i + 1] == before + [probe];
      var provider := ProviderIdOf(probe.name);
      if provider.None? {
        return false;
      }
      assert probe.name == ProviderName(provider.value);
      if ProviderRank(provider.value) in providers || probe.available != (probe.status == Ready) {
        return false;
      }
      providers := providers + {ProviderRank(provider.value)};
      if probe.status != Ready {
        if probe.capabilities != UNAVAILABLE {
          return false;
        }
      } else {
        var consistent := ReadyCapabilitiesConsistent(provider.value, probe);
        if !consistent {
          return false;
        }
      }
      forall p
        ensures ProviderRank(p) in providers <==> exists j :: 0 <= j < i + 1 && probes[j].name == ProviderName(p)
      {
        if p == provider.value {
          assert probes[i].name == ProviderName(p);
        }
      }
    }
    assert probes[..|probes|] == probes;
    return true;
  }

  /** The first probe with this name. */
  function FindProbe(probes: seq<ProviderProbe>, name: string): (r: Option<ProviderProbe>)
    ensures r.Some? ==> r.value in probes && r.value.name == name
    ensures r.None? <==> forall i :: 0 <= i < |probes| ==> probes[i].name != name
  {
    if probes == [] then None
    else if probes[0].name == name then Some(probes[0])
    else FindProbe(probes[1..], name)
  }

  lemma FindProbeIs(probes: seq<ProviderProbe>, i: nat)
    requires ValidProbes(probes) && i < |probes|
    ensures FindProbe(probes, probes[i].name) == Some(probes[i])
  {
  }

  // ----- Declarative specification ---------------------------------------

  function SelectedProvider(intent: Intent): Option<ProviderId> {
    if intent.explicitProvider.Some? then intent.explicitProvider
    else if intent.explicitAccelerator.Some? then Some(Qemu)
    else intent.configProviderPreference
  }

  function SourceOf(intent: Intent): SelectionSource {
    if intent.explicitProvider.Some? || intent.explicitAccelerator.Some? then ExplicitCli
    else if intent.configProviderPreference.Some? then ConfigPreference
    else NativeDefault
  }

  function NativeQemuAccelerator(host: HostOs): Accelerator {
    match host case WindowsHost => Whpx case LinuxHost => Kvm case MacosHost => Hvf
  }

  function NativeProviderRank(host: HostOs, p: ProviderId): nat {
    match host
    case WindowsHost => if p == Hyperv then 0 else 1
    case _ => if p == Qemu then 0 else 1
  }

  function Exact(r: RequestedAccelerator): Option<Accelerator> {
    match r
    case Auto => None
    case RequestWhpx => Some(Whpx)
    case RequestKvm => Some(Kvm)
    case RequestHvf => Some(Hvf)
    case RequestTcg => Some(Tcg)
  }

  function AcceleratorFor(req: Request, p: ProviderId): Accelerator {
    match p
    case Hyperv => HyperV
    case Qemu =>
      var requested := if req.intent.explicitAccelerator.Some? then Exact(req.intent.explicitAccelerator.value)
          else None;
      if requested.Some? then requested.value else NativeQemuAccelerator(req.host.os)
  }

  /** How far a provider gets before matrix rows are looked at. */
  datatype Stage =
    | NotSelected
    | WrongArchitecture
    | NoProvider
    | NoGuestOs
    | NoGuestArchitecture
    | NoAccelerator
    | AtRows(probe: ProviderProbe)

  function StageOf(req: Request, p: ProviderId): Stage {
    var selected := SelectedProvider(req.intent);
    var probe := FindProbe(req.probes, ProviderName(p));
    if selected.Some? && selected.value != p then NotSelected
    else if req.image.guestArch != req.host.architecture then WrongArchitecture
    else if probe.None? || probe.value.status != Ready || !probe.value.available then NoProvider
    else if GuestOsName(req.image.guestOs) !in probe.value.capabilities.guestOs then NoGuestOs
    else if ArchitectureName(req.image.guestArch) !in probe.value.capabilities.guestArch then NoGuestArchitecture
    else if AcceleratorName(AcceleratorFor(req, p)) !in probe.value.capabilities.accelerators then NoAccelerator
    else AtRows(probe.value)
  }

  predicate RowMatches(req: Request, p: ProviderId, key: SupportKey) {
    && key.hostOs == req.host.os
    && key.hostArchitecture == req.host.architecture
    && key.provider == p
    && key.accelerator == AcceleratorFor(req, p)
    && key.guestOs == req.image.guestOs
    && key.guestArchitecture == req.image.guestArch
  }

  predicate TransportUsable(probe: ProviderProbe, t: GuestTransport) {
    TransportName(t) in probe.capabilities.guestTransports && probe.capabilities.networklessGuestExec
  }

  /** The provider reaches the matrix and row `e` describes it. */
  predicate RowReached(req: Request, p: ProviderId, e: SupportMatrixEntry) {
    StageOf(req, p).AtRows? && RowMatches(req, p, e.key)
  }

  predicate RowEligible(req: Request, p: ProviderId, e: SupportMatrixEntry) {
    && RowReached(req, p, e)
    && e.status != Unsupported
    && TransportUsable(StageOf(req, p).probe, e.key.guestTransport)
  }

  function PlanFor(req: Request, p: ProviderId, e: SupportMatrixEntry): Plan {
    Plan(RUN_PLAN_SCHEMA_VERSION, RUN_PLAN_CONTRACT, req.image.id, req.host.os, req.host.architecture,
         req.image.guestOs, req.image.guestArch, p, AcceleratorFor(req, p), e.key.guestTransport, e.status,
         SourceOf(req.intent), false)
  }

  /** Variant `v` of the image names provider `p`. */
  predicate VariantIs(req: Request, v: nat, p: ProviderId) {
    v < |req.image.variants| && ProviderIdOf(req.image.variants[v].provider) == Some(p)
  }

  /** Variant `v` (of provider `p`) and matrix row `m` make an admissible plan. */
  predicate Eligible(req: Request, v: nat, p: ProviderId, m: nat) {
    VariantIs(req, v, p) && m < |req.matrix| && RowEligible(req, p, req.matrix[m])
  }

  /** ... and no other pair is as good. */
  ghost predicate UniqueBest(req: Request, v: nat, p: ProviderId, m: nat) {
    && Eligible(req, v, p, m)
    && forall v': nat, p', m': nat :: Eligible(req, v', p', m') && (v' != v || m' != m) ==>
         NativeProviderRank(req.host.os, p) < NativeProviderRank(req.host.os, p')
  }

  predicate VariantFault(variants: seq<ImageVariant>, i: nat)
    requires i < |variants|
  {
    ProviderIdOf(variants[i].provider).None? || exists j :: 0 <= j < i && variants[j].provider == variants[i].provider
  }

  /** The error of the first variant that is unknown or repeated. */
  function FirstVariantFault(variants: seq<ImageVariant>, i: nat): Option<SelectionError>
    requires i <= |variants|
    decreases |variants| - i
  {
    if i == |variants| then None
    else if ProviderIdOf(variants[i].provider).None? then Some(IncompatibleImageVariant)
    else if VariantFault(variants, i) then Some(Ambiguous)
    else FirstVariantFault(variants, i + 1)
  }

  predicate TcgIntentOk(intent: Intent) {
    (intent.explicitAccelerator == Some(RequestTcg)) == intent.allowTcg
  }

  predicate ImpossibleIntent(intent: Intent) {
    intent.explicitProvider == Some(Hyperv) && intent.explicitAccelerator.Some?
  }

  predicate ImageOffers(req: Request) {
    && req.image.variants != []
    && (SelectedProvider(req.intent).Some? ==>
          exists v :: 0 <= v < |req.image.variants|
            && ProviderIdOf(req.image.variants[v].provider) == SelectedProvider(req.intent))
  }

  /** Evidence, intent and image are in order, so that only eligibility remains to be decided. */
  ghost predicate InputsInOrder(req: Request) {
    && ValidProbes(req.probes)
    && TcgIntentOk(req.intent)
    && !ImpossibleIntent(req.intent)
    && FirstVariantFault(req.image.variants, 0).None?
    && ImageOffers(req)
  }

  datatype Rejections = Rejections(
    architecture: bool, provider: bool, accelerator: bool, transport: bool, unsupported: bool, undocumented: bool)

  datatype Reason = ForArchitecture | ForProvider | ForAccelerator | ForTransport | ForStatus | ForAbsence

  /** A selectable row whose transport the guest cannot use, or a row declared unsupported. */
  predicate RowRefused(probe: ProviderProbe, e: SupportMatrixEntry, selectable: bool) {
    if selectable then e.status != Unsupported && !TransportUsable(probe, e.key.guestTransport)
      else e.status == Unsupported
  }

  predicate SomeRowRefused(req: Request, p: ProviderId, probe: ProviderProbe, selectable: bool) {
    exists m :: 0 <= m < |req.matrix| && RowMatches(req, p, req.matrix[m].key)
      && RowRefused(probe, req.matrix[m], selectable)
  }

  predicate Undocumented(req: Request, p: ProviderId) {
    forall m :: 0 <= m < |req.matrix| ==> !RowMatches(req, p, req.matrix[m].key)
  }

  /** Provider `p` gives this reason for not being used. */
  predicate Refuses(req: Request, p: ProviderId, why: Reason) {
    var stage := StageOf(req, p);
    match why
    case ForArchitecture => stage.WrongArchitecture? || stage.NoGuestArchitecture?
    case ForProvider => stage.NoProvider?
    case ForAccelerator => stage.NoAccelerator?
    case ForTransport => stage.AtRows? && SomeRowRefused(req, p, stage.probe, true)
    case ForStatus => stage.AtRows? && SomeRowRefused(req, p, stage.probe, false)
    case ForAbsence => stage.AtRows? && Undocumented(req, p)
  }

  ghost predicate SomeRefuses(req: Request, n: nat, why: Reason) {
    exists v: nat, p :: v < n && VariantIs(req, v, p) && Refuses(req, p, why)
  }

  /** The rejection flags after the first `n` variants, said without the loop. */
  ghost function RejectionsUpTo(req: Request, n: nat): Rejections {
    Rejections(SomeRefuses(req, n, ForArchitecture), SomeRefuses(req, n, ForProvider),
      SomeRefuses(req, n, ForAccelerator),
               SomeRefuses(req, n, ForTransport), SomeRefuses(req, n, ForStatus), SomeRefuses(req, n, ForAbsence))
  }

  function RejectionError(r: Rejections): SelectionError {
    if r.architecture then ArchitectureMismatch
    else if r.provider then ProviderUnavailable
    else if r.accelerator then AcceleratorUnavailable
    else if r.transport then UnsupportedGuestTransport
    else if r.unsupported then UnsupportedCombination
    else if r.undocumented then UndocumentedCombination
    else IncompatibleImageVariant
  }

  /** The answer, said declaratively: the unique least-ranked eligible pair, or why there is none. */
  ghost function Resolve(req: Request): Result<Plan, SelectionError> {
    if !ValidProbes(req.probes) then Err(ContradictoryCapabilityEvidence)
    else if !TcgIntentOk(req.intent) then Err(TcgRequiresExplicitOptIn)
    else if ImpossibleIntent(req.intent) then Err(ImpossibleProviderAccelerator)
    else if FirstVariantFault(req.image.variants, 0).Some? then Err(FirstVariantFault(req.image.variants, 0).value)
    else if !ImageOffers(req) then Err(IncompatibleImageVariant)
    else if exists v: nat, p, m: nat :: UniqueBest(req, v, p, m) then
      var v: nat, p, m: nat :| UniqueBest(req, v, p, m);
      Ok(PlanFor(req, p, req.matrix[m]))
    else if exists v: nat, p, m: nat :: Eligible(req, v, p, m) then Err(Ambiguous)
    else Err(RejectionError(RejectionsUpTo(req, |req.image.variants|)))
  }

  lemma UniqueBestIsOne(req: Request, v: nat, p: ProviderId, m: nat, v': nat, p': ProviderId, m': nat)
    requires UniqueBest(req, v, p, m) && UniqueBest(req, v', p', m')
    ensures v == v' && p == p' && m == m'
  {
    hide RowEligible;
    assert Eligible(req, v, p, m) && Eligible(req, v', p', m');
  }

  lemma UniqueBestDecides(req: Request, v: nat, p: ProviderId, m: nat)
    requires InputsInOrder(req) && UniqueBest(req, v, p, m)
    ensures Resolve(req) == Ok(PlanFor(req, p, req.matrix[m]))
  {
    hide Eligible, PlanFor, ValidProbes, FirstVariantFault, ImageOffers;
    forall v': nat, p', m': nat | UniqueBest(req, v', p', m')
      ensures v == v' && p == p' && m == m'
    {
      UniqueBestIsOne(req, v, p, m, v', p', m');
    }
  }

  lemma PlanHasBest(req: Request) returns (v: nat, p: ProviderId, m: nat)
    requires Resolve(req).Ok?
    ensures InputsInOrder(req) && UniqueBest(req, v, p, m) && Resolve(req) == Ok(PlanFor(req, p, req.matrix[m]))
  {
    v, p, m :| UniqueBest(req, v, p, m);
    UniqueBestDecides(req, v, p, m);
  }

  // ----- The resolver ----------------------------------------------------

  /** Candidates gathered so far, each standing for its own eligible pair. */
  ghost predicate Faithful(req: Request, candidates: seq<(nat, Plan)>, pairs: seq<(nat, ProviderId, nat)>) {
    && |candidates| == |pairs|
    && Distinct(pairs)
    && forall k :: 0 <= k < |pairs| ==> Stands(req, candidates[k], pairs[k])
  }

  ghost predicate Stands(req: Request, c: (nat, Plan), pair: (nat, ProviderId, nat)) {
    && Eligible(req, pair.0, pair.1, pair.2)
    && c == (NativeProviderRank(req.host.os, pair.1), PlanFor(req, pair.1, req.matrix[pair.2]))
  }

  ghost predicate Complete(req: Request, pairs: seq<(nat, ProviderId, nat)>, n: nat) {
    && (forall k :: 0 <= k < |pairs| ==> pairs[k].0 < n)
    && (forall v: nat, p, m: nat :: v < n && Eligible(req, v, p, m) ==> (v, p, m) in pairs)
  }

  lemma SomeRefusesStep(req: Request, v: nat, p: ProviderId, why: Reason)
    requires VariantIs(req, v, p)
    ensures SomeRefuses(req, v + 1, why) <==> SomeRefuses(req, v, why) || Refuses(req, p, why)
  {
    if SomeRefuses(req, v + 1, why) {
      var v': nat, p' :| v' < v + 1 && VariantIs(req, v', p') && Refuses(req, p', why);
      assert v' == v ==> p' == p;
    }
  }

  /** What one more variant adds to the rejection flags. */
  lemma RejectionsStep(req: Request, v: nat, p: ProviderId)
    requires VariantIs(req, v, p)
    ensures var r := RejectionsUpTo(req, v);
            RejectionsUpTo(req, v + 1) == Rejections(
              r.architecture || Refuses(req, p, ForArchitecture),
              r.provider || Refuses(req, p, ForProvider),
              r.accelerator || Refuses(req, p, ForAccelerator),
              r.transport || Refuses(req, p, ForTransport),
              r.unsupported || Refuses(req, p, ForStatus),
              r.undocumented || Refuses(req, p, ForAbsence))
  {
    SomeRefusesStep(req, v, p, ForArchitecture);
    SomeRefusesStep(req, v, p, ForProvider);
    SomeRefusesStep(req, v, p, ForAccelerator);
    SomeRefusesStep(req, v, p, ForTransport);
    SomeRefusesStep(req, v, p, ForStatus);
    SomeRefusesStep(req, v, p, ForAbsence);
  }

  lemma NothingAtVariant(req: Request, v: nat, p: ProviderId, known: seq<(nat, ProviderId, nat)>)
    requires VariantIs(req, v, p) && !StageOf(req, p).AtRows?
    requires Complete(req, known, v)
    ensures Complete(req, known, v + 1)
  {
  }

  ghost predicate Increasing(s: seq<nat>) {
    forall i, j :: 0 <= i < j < |s| ==> s[i] < s[j]
  }

  /** The positions of the provider's matching rows, each once. */
  ghost predicate RowsOf(req: Request, p: ProviderId, rows: seq<nat>) {
    && Increasing(rows)
    && (forall i :: 0 <= i < |rows| ==> rows[i] < |req.matrix| && RowMatches(req, p, req.matrix[rows[i]].key))
    && (forall m: nat :: m < |req.matrix| && RowMatches(req, p, req.matrix[m].key) ==> m in rows)
  }

  method MatchingRows(req: Request, p: ProviderId) returns (rows: seq<nat>)
    ensures RowsOf(req, p, rows)
  {
    rows := [];
    for m := 0 to |req.matrix|
      invariant Increasing(rows)
      invariant forall i :: 0 <= i < |rows| ==> rows[i] < m && RowMatches(req, p, req.matrix[rows[i]].key)
      invariant forall k: nat :: k < m && RowMatches(req, p, req.matrix[k].key) ==> k in rows
    {
      if RowMatches(req, p, req.matrix[m].key) {
        rows := rows + [m];
      }
    }
  }

  predicate RowUsable(probe: ProviderProbe, e: SupportMatrixEntry) {
    e.status != Unsupported && TransportUsable(probe, e.key.guestTransport)
  }

  /** Exactly the positions of the usable rows among `entries`, in order. */
  ghost predicate Chosen(probe: ProviderProbe, entries: seq<SupportMatrixEntry>, chosen: seq<nat>) {
    && Increasing(chosen)
    && (forall i :: 0 <= i < |chosen| ==> chosen[i] < |entries| && RowUsable(probe, entries[chosen[i]]))
    && (forall k: nat :: k < |entries| && RowUsable(probe, entries[k]) ==> k in chosen)
  }

  predicate AnyRefused(probe: ProviderProbe, entries: seq<SupportMatrixEntry>, selectable: bool) {
    exists k :: 0 <= k < |entries| && RowRefused(probe, entries[k], selectable)
  }

  /** The row loop for a variant that reached the matrix: which rows become candidates, and two flags. */
  method ScanRows(probe: ProviderProbe, entries: seq<SupportMatrixEntry>, noneBefore: bool)
    returns (chosen: seq<nat>, unsupported: bool, transport: bool)
    ensures Chosen(probe, entries, chosen)
    ensures unsupported <==> AnyRefused(probe, entries, false)
    ensures transport <==> AnyRefused(probe, entries, true)
  {
    hide TransportUsable;
    chosen, unsupported, transport := [], false, false;
    var selectableRow := false;
    for k := 0 to |entries|
      invariant Increasing(chosen)
      invariant forall i :: 0 <= i < |chosen| ==> chosen[i] < k && RowUsable(probe, entries[chosen[i]])
      invariant forall i: nat :: i < k && RowUsable(probe, entries[i]) ==> i in chosen
      invariant unsupported <==> exists i :: 0 <= i < k && RowRefused(probe, entries[i], false)
      invariant transport <==> exists i :: 0 <= i < k && RowRefused(probe, entries[i], true)
      invariant selectableRow ==> chosen != [] || transport
    {
      var entry := entries[k];
      if entry.status == Unsupported {
        unsupported := true;
      } else {
        selectableRow := true;
        if !TransportUsable(probe, entry.key.guestTransport) {
          transport := true;
        } else {
          chosen := chosen + [k];
        }
      }
    }
    if selectableRow && noneBefore && chosen == [] {
      assert transport;  // the last assignment of the loop body never changes the flag
      transport := true;
    }
  }

  function EntriesAt(req: Request, rows: seq<nat>): (r: seq<SupportMatrixEntry>)
    requires forall i :: 0 <= i < |rows| ==> rows[i] < |req.matrix|
    ensures |r| == |rows|
  {
    seq(|rows|, i requires 0 <= i < |rows| => req.matrix[rows[i]])
  }

  lemma RowsCovered(req: Request, p: ProviderId, probe: ProviderProbe, rows: seq<nat>, b: bool)
    requires RowsOf(req, p, rows)
    ensures SomeRowRefused(req, p, probe, b) <==> AnyRefused(probe, EntriesAt(req, rows), b)
  {
    hide RowMatches, RowRefused;
    var entries := EntriesAt(req, rows);
    if SomeRowRefused(req, p, probe, b) {
      var m :| 0 <= m < |req.matrix| && RowMatches(req, p, req.matrix[m].key) && RowRefused(probe, req.matrix[m], b);
      assert m in rows;
      var i :| 0 <= i < |rows| && rows[i] == m;
      assert RowRefused(probe, entries[i], b);
    }
    if AnyRefused(probe, entries, b) {
      var k :| 0 <= k < |entries| && RowRefused(probe, entries[k], b);
      assert RowMatches(req, p, req.matrix[rows[k]].key) && RowRefused(probe, req.matrix[rows[k]], b);
    }
  }

  /** The candidates of one variant, in row order. */
  function CandidatesOf(req: Request, p: ProviderId, entries: seq<SupportMatrixEntry>,
                        chosen: seq<nat>): (r: seq<(nat, Plan)>)
    requires forall i :: 0 <= i < |chosen| ==> chosen[i] < |entries|
    ensures |r| == |chosen|
    ensures forall i :: 0 <= i < |r| ==>
            r[i] == (NativeProviderRank(req.host.os, p), PlanFor(req, p, entries[chosen[i]]))
  {
    seq(|chosen|, i requires 0 <= i < |chosen| => (NativeProviderRank(req.host.os, p),
      PlanFor(req, p, entries[chosen[i]])))
  }

  /** The chosen rows are the eligible ones of this variant. */
  lemma ChosenAreEligible(req: Request, v: nat, p: ProviderId, probe: ProviderProbe, rows: seq<nat>, chosen: seq<nat>)
    requires VariantIs(req, v, p) && StageOf(req, p) == AtRows(probe) && RowsOf(req, p, rows)
    requires Chosen(probe, EntriesAt(req, rows), chosen)
    ensures forall i :: 0 <= i < |chosen| ==> Eligible(req, v, p, rows[chosen[i]])
    ensures forall m: nat :: Eligible(req, v, p, m) ==> exists i :: 0 <= i < |chosen| && rows[chosen[i]] == m
  {
    hide StageOf, RowMatches, TransportUsable;
    var entries := EntriesAt(req, rows);
    forall m: nat | Eligible(req, v, p, m)
      ensures exists i :: 0 <= i < |chosen| && rows[chosen[i]] == m
    {
      assert m in rows;
      var k :| 0 <= k < |rows| && rows[k] == m;
      assert RowUsable(probe, entries[k]);
      var i :| 0 <= i < |chosen| && chosen[i] == k;
    }
    forall i | 0 <= i < |chosen|
      ensures Eligible(req, v, p, rows[chosen[i]])
    {
      assert entries[chosen[i]] == req.matrix[rows[chosen[i]]];
    }
  }

  function PairsOf(v: nat, p: ProviderId, rows: seq<nat>, chosen: seq<nat>): (r: seq<(nat, ProviderId, nat)>)
    requires forall i :: 0 <= i < |chosen| ==> chosen[i] < |rows|
    ensures |r| == |chosen|
    ensures forall i :: 0 <= i < |r| ==> r[i] == (v, p, rows[chosen[i]])
  {
    seq(|chosen|, i requires 0 <= i < |chosen| => (v, p, rows[chosen[i]]))
  }

  lemma ChosenStand(req: Request, v: nat, p: ProviderId, rows: seq<nat>, chosen: seq<nat>, i: nat)
    requires i < |chosen|
    requires forall j :: 0 <= j < |rows| ==> rows[j] < |req.matrix|
    requires forall j :: 0 <= j < |chosen| ==> chosen[j] < |rows|
    requires Eligible(req, v, p, rows[chosen[i]])
    ensures Stands(req, CandidatesOf(req, p, EntriesAt(req, rows), chosen)[i], PairsOf(v, p, rows, chosen)[i])
  {
    hide Eligible, PlanFor, NativeProviderRank;
  }

  lemma ExtendFaithful(req: Request, v: nat, p: ProviderId, probe: ProviderProbe, rows: seq<nat>, chosen: seq<nat>,
                       gathered: seq<(nat, Plan)>, known: seq<(nat, ProviderId, nat)>)
    returns (pairs: seq<(nat, ProviderId, nat)>)
    requires VariantIs(req, v, p) && StageOf(req, p) == AtRows(probe) && RowsOf(req, p, rows)
    requires Chosen(probe, EntriesAt(req, rows), chosen)
    requires Faithful(req, gathered, known) && Complete(req, known, v)
    ensures Faithful(req, gathered + CandidatesOf(req, p, EntriesAt(req, rows), chosen), pairs)
            && Complete(req, pairs, v + 1)
  {
    hide Eligible, Faithful, Complete, EntriesAt, RowUsable, RowMatches, StageOf, VariantIs, Stands;
    ChosenAreEligible(req, v, p, probe, rows, chosen);
    var candidates := CandidatesOf(req, p, EntriesAt(req, rows), chosen);
    var added := PairsOf(v, p, rows, chosen);
    pairs := known + added;
    forall i | 0 <= i < |added|
      ensures Stands(req, candidates[i], added[i])
    {
      ChosenStand(req, v, p, rows, chosen, i);
    }
    forall m: nat | Eligible(req, v, p, m)
      ensures (v, p, m) in added
    {
      var i :| 0 <= i < |chosen| && rows[chosen[i]] == m;
      assert added[i] == (v, p, m);
    }
    PairsExtended(req, v, p, gathered, known, candidates, added);
  }

  lemma PairsExtended(req: Request, v: nat, p: ProviderId, gathered: seq<(nat, Plan)>,
                      known: seq<(nat, ProviderId, nat)>,
                      candidates: seq<(nat, Plan)>, added: seq<(nat, ProviderId, nat)>)
    requires VariantIs(req, v, p) && Faithful(req, gathered, known) && Complete(req, known, v)
    requires |candidates| == |added|
    requires forall i :: 0 <= i < |added| ==> Stands(req, candidates[i], added[i]) && added[i].0 == v
    requires forall i, j :: 0 <= i < j < |added| ==> added[i].2 < added[j].2
    requires forall m: nat :: Eligible(req, v, p, m) ==> (v, p, m) in added
    ensures Faithful(req, gathered + candidates, known + added) && Complete(req, known + added, v + 1)
  {
    hide Stands, RowEligible;
    var pairs := known + added;
    forall v': nat, p', m: nat | v' < v + 1 && Eligible(req, v', p', m)
      ensures (v', p', m) in pairs
    {
      if v' == v {
        assert p' == p;
      }
    }
  }

  /** One iteration of the variant loop. */
  method ConsiderVariant(req: Request, v: nat, p: ProviderId, gathered: seq<(nat, Plan)>,
                         ghost known: seq<(nat, ProviderId, nat)>, before: Rejections)
    returns (candidates: seq<(nat, Plan)>, ghost pairs: seq<(nat, ProviderId, nat)>, rejected: Rejections)
    requires VariantIs(req, v, p)
    requires Faithful(req, gathered, known) && Complete(req, known, v) && before == RejectionsUpTo(req, v)
    ensures Faithful(req, candidates, pairs) && Complete(req, pairs, v + 1) && rejected == RejectionsUpTo(req, v + 1)
  {
    hide StageOf, Faithful, Complete, SomeRefuses, RejectionsUpTo, SomeRowRefused;
    candidates, pairs := gathered, known;
    RejectionsStep(req, v, p);
    var stage := ProviderStage(req, p);
    if !stage.AtRows? {
      NothingAtVariant(req, v, p, known);
    }
    match stage
    case NotSelected => rejected := before;
    case NoGuestOs => rejected := before;
    case WrongArchitecture => rejected := before.(architecture := true);
    case NoGuestArchitecture => rejected := before.(architecture := true);
    case NoProvider => rejected := before.(provider := true);
    case NoAccelerator => rejected := before.(accelerator := true);
    case AtRows(probe) =>
      var addedRejections;
      candidates, pairs, addedRejections := ConsiderRows(req, v, p, probe, gathered, known);
      rejected := before.(
        unsupported := before.unsupported || addedRejections.unsupported,
        transport := before.transport || addedRejections.transport,
        undocumented := before.undocumented || addedRejections.undocumented);
  }

  /** The part of the iteration that consults the matrix. */
  method ConsiderRows(req: Request, v: nat, p: ProviderId, probe: ProviderProbe, gathered: seq<(nat, Plan)>,
                      ghost known: seq<(nat, ProviderId, nat)>)
    returns (candidates: seq<(nat, Plan)>, ghost pairs: seq<(nat, ProviderId, nat)>, added: Rejections)
    requires VariantIs(req, v, p) && StageOf(req, p) == AtRows(probe)
    requires Faithful(req, gathered, known) && Complete(req, known, v)
    ensures Faithful(req, candidates, pairs) && Complete(req, pairs, v + 1)
    ensures added == Rejections(false, false, false, SomeRowRefused(req, p, probe, true),
            SomeRowRefused(req, p, probe, false), Undocumented(req, p))
  {
    hide StageOf, Faithful, Complete, VariantIs, SomeRowRefused, AnyRefused, RowMatches;
    var rows := MatchingRows(req, p);
    var entries := EntriesAt(req, rows);
    var chosen, unsupported, transport := ScanRows(probe, entries, gathered == []);
    RowsCovered(req, p, probe, rows, true);
    RowsCovered(req, p, probe, rows, false);
    pairs := ExtendFaithful(req, v, p, probe, rows, chosen, gathered, known);
    candidates := gathered + CandidatesOf(req, p, entries, chosen);
    assert rows != [] ==> RowMatches(req, p, req.matrix[rows[0]].key);
    added := Rejections(false, false, false, transport, unsupported, rows == []);
  }

  /** The tests before the matrix is consulted, in the order of the program. */
  method ProviderStage(req: Request, p: ProviderId) returns (stage: Stage)
    ensures stage == StageOf(req, p)
  {
    var selected := SelectedProvider(req.intent);
    if selected.Some? && selected.value != p {
      return NotSelected;
    }
    if req.image.guestArch != req.host.architecture {
      return WrongArchitecture;
    }
    var found := FindProbe(req.probes, ProviderName(p));
    if found.None? || found.value.status != Ready || !found.value.available {
      return NoProvider;
    }
    var probe := found.value;
    if GuestOsName(req.image.guestOs) !in probe.capabilities.guestOs {
      return NoGuestOs;
    }
    if ArchitectureName(req.image.guestArch) !in probe.capabilities.guestArch {
      return NoGuestArchitecture;
    }
    if AcceleratorName(AcceleratorFor(req, p)) !in probe.capabilities.accelerators {
      return NoAccelerator;
    }
    return AtRows(probe);
  }

  // ----- Choosing the best candidate -------------------------------------

  lemma LeaderToBest(req: Request, candidates: seq<(nat, Plan)>, pairs: seq<(nat, ProviderId, nat)>, i: nat)
    requires Faithful(req, candidates, pairs) && Complete(req, pairs, |req.image.variants|)
    requires Leads(candidates, i)
    ensures UniqueBest(req, pairs[i].0, pairs[i].1, pairs[i].2)
  {
    hide RowEligible, PlanFor;
    assert Stands(req, candidates[i], pairs[i]);
    forall v': nat, p', m': nat | Eligible(req, v', p', m') && (v' != pairs[i].0 || m' != pairs[i].2)
      ensures NativeProviderRank(req.host.os, pairs[i].1) < NativeProviderRank(req.host.os, p')
    {
      assert (v', p', m') in pairs;
      var j :| 0 <= j < |pairs| && pairs[j] == (v', p', m');
      assert Stands(req, candidates[j], pairs[j]);
      assert j != i && candidates[j].0 == NativeProviderRank(req.host.os, p');
    }
  }

  lemma BestToLeader(req: Request, candidates: seq<(nat, Plan)>, pairs: seq<(nat, ProviderId, nat)>, v: nat,
                     p: ProviderId, m: nat)
    returns (i: nat)
    requires Faithful(req, candidates, pairs) && Complete(req, pairs, |req.image.variants|)
    requires UniqueBest(req, v, p, m)
    ensures Leads(candidates, i)
  {
    hide RowEligible, PlanFor, NativeProviderRank;
    assert Eligible(req, v, p, m);
    i :| 0 <= i < |pairs| && pairs[i] == (v, p, m);
    forall j | 0 <= j < |candidates| && j != i
      ensures candidates[i].0 < candidates[j].0
    {
      assert Stands(req, candidates[i], pairs[i]) && Stands(req, candidates[j], pairs[j]);
      assert pairs[j] != pairs[i] && Eligible(req, pairs[j].0, pairs[j].1, pairs[j].2);
    }
  }

  lemma LeaderIsBest(req: Request, candidates: seq<(nat, Plan)>, pairs: seq<(nat, ProviderId, nat)>)
    requires Faithful(req, candidates, pairs) && Complete(req, pairs, |req.image.variants|)
    ensures forall i: nat :: Leads(candidates, i) ==> UniqueBest(req, pairs[i].0, pairs[i].1, pairs[i].2)
    ensures (exists i: nat :: Leads(candidates, i)) <==> exists v: nat, p, m: nat :: UniqueBest(req, v, p, m)
    ensures candidates != [] <==> exists v: nat, p, m: nat :: Eligible(req, v, p, m)
  {
    hide RowEligible, PlanFor, UniqueBest, NativeProviderRank;
    forall i: nat | Leads(candidates, i)
      ensures UniqueBest(req, pairs[i].0, pairs[i].1, pairs[i].2)
    {
      LeaderToBest(req, candidates, pairs, i);
    }
    if v: nat, p, m: nat :| UniqueBest(req, v, p, m) {
      var i := BestToLeader(req, candidates, pairs, v, p, m);
    }
    if candidates != [] {
      assert Stands(req, candidates[0], pairs[0]);
    }
  }

  method CheckVariants(variants: seq<ImageVariant>) returns (fault: Option<SelectionError>)
    ensures fault == FirstVariantFault(variants, 0)
  {
    var seen: set<nat> := {};
    for i := 0 to |variants|
      invariant FirstVariantFault(variants, 0) == FirstVariantFault(variants, i)
      invariant forall p :: ProviderRank(p) in seen <==> exists j ::
                0 <= j < i && variants[j].provider == ProviderName(p)
    {
      var provider := ProviderIdOf(variants[i].provider);
      if provider.None? {
        return Some(IncompatibleImageVariant);
      }
      assert variants[i].provider == ProviderName(provider.value);
      if ProviderRank(provider.value) in seen {
        return Some(Ambiguous);
      }
      seen := seen + {ProviderRank(provider.value)};
    }
    return None;
  }

  /** The resolver of the program: loops, flags, sort and count compute exactly `Resolve`. */
  method ResolveWithMatrix(req: Request) returns (r: Result<Plan, SelectionError>)
    ensures r == Resolve(req)
  {
    var probesOk := ValidateProbeSnapshots(req.probes);
    if !probesOk {
      return Err(ContradictoryCapabilityEvidence);
    }
    if !TcgIntentOk(req.intent) {
      return Err(TcgRequiresExplicitOptIn);
    }
    if ImpossibleIntent(req.intent) {
      return Err(ImpossibleProviderAccelerator);
    }
    var fault := CheckVariants(req.image.variants);
    if fault.Some? {
      return Err(fault.value);
    }
    if !ImageOffers(req) {
      return Err(IncompatibleImageVariant);
    }
    var candidates, pairs, rejected := GatherCandidates(req);
    LeaderIsBest(req, candidates, pairs);
    if candidates == [] {
      return Err(RejectionError(rejected));
    }
    r := ChooseBest(candidates);
    if r.Ok? {
      assert forall k :: 0 <= k < |pairs| ==> Stands(req, candidates[k], pairs[k]);
      ghost var i: nat :| Leads(candidates, i) && r == Ok(candidates[i].1);
      UniqueBestDecides(req, pairs[i].0, pairs[i].1, pairs[i].2);
    }
  }

  method GatherCandidates(req: Request)
    returns (candidates: seq<(nat, Plan)>, ghost pairs: seq<(nat, ProviderId, nat)>, rejected: Rejections)
    requires FirstVariantFault(req.image.variants, 0).None?
    ensures Faithful(req, candidates, pairs) && Complete(req, pairs, |req.image.variants|)
    ensures rejected == RejectionsUpTo(req, |req.image.variants|)
  {
    candidates, pairs := [], [];
    rejected := Rejections(false, false, false, false, false, false);
    for v := 0 to |req.image.variants|
      invariant Faithful(req, candidates, pairs) && Complete(req, pairs, v)
      invariant rejected == RejectionsUpTo(req, v)
    {
      KnownVariants(req.image.variants, 0, v);
      var provider := ProviderIdOf(req.image.variants[v].provider).value;
      candidates, pairs, rejected := ConsiderVariant(req, v, provider, candidates, pairs, rejected);
    }
  }

  /** Sort, count the best rank, take the head. */
  method ChooseBest(candidates: seq<(nat, Plan)>) returns (r: Result<Plan, SelectionError>)
    requires candidates != []
    ensures r.Ok? ==> exists i: nat :: Leads(candidates, i) && r == Ok(candidates[i].1)
    ensures r.Err? ==> r.error == Ambiguous && !exists i: nat :: Leads(candidates, i)
  {
    LeaderFirst(candidates);
    var sorted := SortByRank(candidates);
    if CountRank(sorted, sorted[0].0) != 1 {
      return Err(Ambiguous);
    }
    return Ok(sorted[0].1);
  }

  lemma {:induction false} KnownVariants(variants: seq<ImageVariant>, i: nat, v: nat)
    requires i <= v < |variants| && FirstVariantFault(variants, i).None?
    ensures ProviderIdOf(variants[v].provider).Some? && !VariantFault(variants, v)
    decreases v - i
  {
    if i < v {
      KnownVariants(variants, i + 1, v);
    }
  }
}
