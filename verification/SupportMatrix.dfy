/** The platform support contract and its validator (`src/core/support.rs`). */
module SupportMatrix {
  import opened Prelude

  datatype HostOs = WindowsHost | LinuxHost | MacosHost
  datatype GuestOs = WindowsGuest | LinuxGuest | MacosGuest
  datatype Architecture = X86_64 | Aarch64
  datatype ProviderId = Hyperv | Qemu
  datatype Accelerator = HyperV | Whpx | Kvm | Hvf | Tcg
  datatype GuestTransport = PowerShellDirect | Qga | Ssh
  datatype SupportStatus = Supported | Experimental | DevelopmentOnly | Untested | Unsupported
  datatype AcceptanceScope = RepositoryLocal | RealPlatform
  datatype AcceptanceEvidence = AcceptanceEvidence(scope: AcceptanceScope, reference: string)

  datatype SupportKey = SupportKey(
    hostOs: HostOs,
    hostArchitecture: Architecture,
    provider: ProviderId,
    accelerator: Accelerator,
    guestOs: GuestOs,
    guestArchitecture: Architecture,
    guestTransport: GuestTransport)

  datatype SupportMatrixEntry = SupportMatrixEntry(
    key: SupportKey, status: SupportStatus, acceptanceEvidence: seq<AcceptanceEvidence>)

  datatype MatrixError =
    | Empty
    | DuplicateKey(key: SupportKey)
    | NonCanonicalOrder(key: SupportKey)
    | ImpossibleCombination(key: SupportKey)
    | MissingRealPlatformEvidence(key: SupportKey)
    | InvalidEvidenceReference(reference: string)

  // ----- Canonical order -------------------------------------------------

  datatype Rank = Rank(hostOs: nat, hostArch: nat, provider: nat, accelerator: nat, guestOs: nat, guestArch: nat,
    transport: nat)

  function HostOsRank(v: HostOs): nat {
    match v case WindowsHost => 0 case LinuxHost => 1 case MacosHost => 2
  }

  function ArchitectureRank(v: Architecture): nat {
    match v case X86_64 => 0 case Aarch64 => 1
  }

  function ProviderRank(v: ProviderId): nat {
    match v case Hyperv => 0 case Qemu => 1
  }

  function AcceleratorRank(v: Accelerator): nat {
    match v case HyperV => 0 case Whpx => 1 case Kvm => 2 case Hvf => 3 case Tcg => 4
  }

  function GuestOsRank(v: GuestOs): nat {
    match v case WindowsGuest => 0 case LinuxGuest => 1 case MacosGuest => 2
  }

  function TransportRank(v: GuestTransport): nat {
    match v case PowerShellDirect => 0 case Qga => 1 case Ssh => 2
  }

  function SupportKeyRank(key: SupportKey): Rank {
    Rank(HostOsRank(key.hostOs), ArchitectureRank(key.hostArchitecture), ProviderRank(key.provider),
         AcceleratorRank(key.accelerator), GuestOsRank(key.guestOs), ArchitectureRank(key.guestArchitecture),
         TransportRank(key.guestTransport))
  }

  /** Lexicographic order of the seven rank components. */
  predicate Before(a: Rank, b: Rank) {
    || a.hostOs < b.hostOs
    || (a.hostOs == b.hostOs &&
        (|| a.hostArch < b.hostArch
         || (a.hostArch == b.hostArch &&
             (|| a.provider < b.provider
              || (a.provider == b.provider &&
                  (|| a.accelerator < b.accelerator
                   || (a.accelerator == b.accelerator &&
                       (|| a.guestOs < b.guestOs
                        || (a.guestOs == b.guestOs &&
                            (|| a.guestArch < b.guestArch
                             || (a.guestArch == b.guestArch && a.transport < b.transport)))))))))))
  }

  /** Different keys have different ranks, and every two ranks are ordered one way. */
  lemma RankFacts(a: SupportKey, b: SupportKey)
    ensures SupportKeyRank(a) == SupportKeyRank(b) <==> a == b
    ensures Before(SupportKeyRank(a), SupportKeyRank(b)) ==> a != b
    ensures Before(SupportKeyRank(a), SupportKeyRank(b)) || Before(SupportKeyRank(b), SupportKeyRank(a)) || a == b
  {
  }

  // ----- Row rules -------------------------------------------------------

  predicate CombinationIsPossible(key: SupportKey) {
    var providerAccelerator :=
      match key.provider
      case Hyperv => key.hostOs == WindowsHost && key.accelerator == HyperV
      case Qemu =>
        match key.accelerator
        case HyperV => false
        case Whpx => key.hostOs == WindowsHost
        case Kvm => key.hostOs == LinuxHost
        case Hvf => key.hostOs == MacosHost
        case Tcg => true;
    var architecture := key.accelerator == Tcg || key.hostArchitecture == key.guestArchitecture;
    var transport :=
      || (key.provider == Hyperv && key.guestOs == WindowsGuest && key.guestTransport == PowerShellDirect)
      || (key.provider == Qemu && key.guestOs == LinuxGuest && key.guestTransport == Qga);
    providerAccelerator && architecture && transport
  }

  /** A relative path of ordinary components; real-platform evidence is a receipt. */
  predicate ValidEvidence(evidence: AcceptanceEvidence) {
    var components := Split(evidence.reference, '/');
    && evidence.reference != ""
    && !StartsWith(evidence.reference, "/")
    && components[0] != "."
    && ".." !in components
    && (evidence.scope == RealPlatform ==>
          StartsWith(evidence.reference, "docs/receipts/") && EndsWith(evidence.reference, ".md"))
  }

  predicate HasRealPlatformEvidence(entry: SupportMatrixEntry) {
    exists i :: 0 <= i < |entry.acceptanceEvidence| && entry.acceptanceEvidence[i].scope == RealPlatform
  }

  predicate RowAdmissible(entry: SupportMatrixEntry) {
    && (CombinationIsPossible(entry.key) || entry.status == Unsupported)
    && (forall i :: 0 <= i < |entry.acceptanceEvidence| ==> ValidEvidence(entry.acceptanceEvidence[i]))
    && (entry.status in {Supported, Experimental} ==> HasRealPlatformEvidence(entry))
  }

  /** What an accepted matrix is: a non-empty list of admissible rows in strictly
      ascending canonical order, over all pairs of rows and not only neighbours. */
  ghost predicate ValidMatrix(entries: seq<SupportMatrixEntry>) {
    && entries != []
    && (forall i :: 0 <= i < |entries| ==> RowAdmissible(entries[i]))
    && (forall i, j :: 0 <= i < j < |entries| ==>
          Before(SupportKeyRank(entries[i].key), SupportKeyRank(entries[j].key)))
  }

  predicate Follows(a: SupportMatrixEntry, b: SupportMatrixEntry) {
    Before(SupportKeyRank(a.key), SupportKeyRank(b.key))
  }

  /** Row `i` repeats an earlier key. */
  predicate Repeated(entries: seq<SupportMatrixEntry>, i: nat)
    requires i < |entries|
  {
    exists j :: 0 <= j < i && entries[j].key == entries[i].key
  }

  /** The error the validator reports for row `i`, all earlier rows being good. */
  ghost predicate Reports(entries: seq<SupportMatrixEntry>, i: nat, e: MatrixError)
    requires i < |entries|
  {
    if i > 0 && !Follows(entries[i - 1], entries[i]) then
      e == if Repeated(entries, i) then DuplicateKey(entries[i].key) else NonCanonicalOrder(entries[i].key)
    else ReportsRow(entries[i], e)
  }

  /** The error for a row that is in order but not admissible. */
  ghost predicate ReportsRow(entry: SupportMatrixEntry, e: MatrixError) {
    if !CombinationIsPossible(entry.key) && entry.status != Unsupported then e == ImpossibleCombination(entry.key)
    else if exists n :: 0 <= n < |entry.acceptanceEvidence| && !ValidEvidence(entry.acceptanceEvidence[n]) then
      exists n :: 0 <= n < |entry.acceptanceEvidence| && !ValidEvidence(entry.acceptanceEvidence[n])
                  && (forall k :: 0 <= k < n ==> ValidEvidence(entry.acceptanceEvidence[k]))
                  && e == InvalidEvidenceReference(entry.acceptanceEvidence[n].reference)
    else
      && entry.status in {Supported, Experimental} && !HasRealPlatformEvidence(entry)
      && e == MissingRealPlatformEvidence(entry.key)
  }

  method CheckRow(entry: SupportMatrixEntry) returns (error: Option<MatrixError>)
    ensures error.None? <==> RowAdmissible(entry)
    ensures error.Some? ==> ReportsRow(entry, error.value)
  {
    hide CombinationIsPossible, ValidEvidence, HasRealPlatformEvidence;
    if !CombinationIsPossible(entry.key) && entry.status != Unsupported {
      return Some(ImpossibleCombination(entry.key));
    }
    for n := 0 to |entry.acceptanceEvidence|
      invariant forall k :: 0 <= k < n ==> ValidEvidence(entry.acceptanceEvidence[k])
    {
      if !ValidEvidence(entry.acceptanceEvidence[n]) {
        return Some(InvalidEvidenceReference(entry.acceptanceEvidence[n].reference));
      }
    }
    if entry.status in {Supported, Experimental} && !HasRealPlatformEvidence(entry) {
      return Some(MissingRealPlatformEvidence(entry.key));
    }
    return None;
  }

  /** The validator accepts exactly the valid matrices; a refusal names the first bad row. */
  method ValidateSupportMatrix(entries: seq<SupportMatrixEntry>) returns (r: Result<(), MatrixError>)
    ensures r.Ok? <==> ValidMatrix(entries)
    ensures r == Err(Empty) <==> entries == []
    ensures r.Err? && entries != [] ==>
              exists i :: 0 <= i < |entries| && Reports(entries, i, r.error) && (i > 0 ==> ValidMatrix(entries[..i]))
  {
    if entries == [] {
      return Err(Empty);
    }
    hide Follows, SupportKeyRank, RowAdmissible, ReportsRow, ValidMatrix;
    var keys: set<Rank> := {};
    var previous: Option<Rank> := None;
    for i := 0 to |entries|
      invariant previous == if i == 0 then None else Some(SupportKeyRank(entries[i - 1].key))
      invariant keys == set j | 0 <= j < i :: SupportKeyRank(entries[j].key)
      invariant i > 0 ==> ValidMatrix(entries[..i])
    {
      var entry := entries[i];
      var rank := SupportKeyRank(entry.key);
      RowVerdict(entries, i);
      if previous.Some? && !Before(previous.value, rank) {
        if rank in keys {
          assert Reports(entries, i, DuplicateKey(entry.key));
          return Err(DuplicateKey(entry.key));
        }
        assert Reports(entries, i, NonCanonicalOrder(entry.key));
        return Err(NonCanonicalOrder(entry.key));
      }
      assert rank !in keys;  // the second duplicate test of the validator can never fire
      keys := keys + {rank};
      previous := Some(rank);
      var error := CheckRow(entry);
      if error.Some? {
        assert Reports(entries, i, error.value);
        return Err(error.value);
      }
    }
    assert entries[..|entries|] == entries;
    return Ok(());
  }

  lemma RepeatedByRank(entries: seq<SupportMatrixEntry>, i: nat)
    requires i < |entries|
    ensures Repeated(entries, i) <==> exists j ::
            0 <= j < i && SupportKeyRank(entries[j].key) == SupportKeyRank(entries[i].key)
  {
    forall j | 0 <= j < i
      ensures SupportKeyRank(entries[j].key) == SupportKeyRank(entries[i].key) <==> entries[j].key == entries[i].key
    {
      RankFacts(entries[j].key, entries[i].key);
    }
    hide SupportKeyRank;
  }

  /** A row that follows its neighbour follows every earlier row. */
  lemma FollowsAll(entries: seq<SupportMatrixEntry>, i: nat, j: nat)
    requires j < i < |entries| && ValidMatrix(entries[..i]) && Follows(entries[i - 1], entries[i])
    ensures Follows(entries[j], entries[i]) && entries[j].key != entries[i].key
  {
    RankFacts(entries[j].key, entries[i].key);
    hide SupportKeyRank, RowAdmissible;
    var before := entries[..i];
    assert before[j] == entries[j] && before[i - 1] == entries[i - 1];
    if j < i - 1 {
      assert Before(SupportKeyRank(before[j].key), SupportKeyRank(before[i - 1].key));
    }
  }

  /** What the tests on row `i` decide, every earlier row being good. */
  lemma RowVerdict(entries: seq<SupportMatrixEntry>, i: nat)
    requires i < |entries| && (i > 0 ==> ValidMatrix(entries[..i]))
    ensures Repeated(entries, i) <==> exists j ::
            0 <= j < i && SupportKeyRank(entries[j].key) == SupportKeyRank(entries[i].key)
    ensures i > 0 ==> (Follows(entries[i - 1], entries[i]) <==>
            Before(SupportKeyRank(entries[i - 1].key), SupportKeyRank(entries[i].key)))
    ensures (i == 0 || Follows(entries[i - 1], entries[i])) ==> !Repeated(entries, i)
    ensures (i == 0 || Follows(entries[i - 1], entries[i])) && RowAdmissible(entries[i]) ==>
            ValidMatrix(entries[..i + 1])
    ensures !(i == 0 || Follows(entries[i - 1], entries[i])) || !RowAdmissible(entries[i]) ==> !ValidMatrix(entries)
  {
    RepeatedByRank(entries, i);
    hide SupportKeyRank, RowAdmissible, Before;
    if i == 0 || Follows(entries[i - 1], entries[i]) {
      forall j | 0 <= j < i
        ensures Follows(entries[j], entries[i]) && entries[j].key != entries[i].key
      {
        FollowsAll(entries, i, j);
      }
      if RowAdmissible(entries[i]) {
        RowAdded(entries, i);
      }
    }
  }

  lemma RowAdded(entries: seq<SupportMatrixEntry>, i: nat)
    requires i < |entries| && (i > 0 ==> ValidMatrix(entries[..i])) && RowAdmissible(entries[i])
    requires forall j :: 0 <= j < i ==> Follows(entries[j], entries[i])
    ensures ValidMatrix(entries[..i + 1])
  {
    hide SupportKeyRank, RowAdmissible, Before;
    var before, after := entries[..i], entries[..i + 1];
    assert after == before + [entries[i]];
    assert forall j :: 0 <= j < i ==> after[j] == before[j] && before[j] == entries[j];
  }

  /** In an accepted matrix a selectable row is determined by its key without the
      transport: provider and guest OS leave one transport, and keys are unique. */
  lemma SelectableRowUnique(entries: seq<SupportMatrixEntry>, i: nat, j: nat)
    requires ValidMatrix(entries) && i < |entries| && j < |entries|
    requires entries[i].status != Unsupported && entries[j].status != Unsupported
    requires entries[i].key.(guestTransport := Ssh) == entries[j].key.(guestTransport := Ssh)
    ensures i == j
  {
    assert RowAdmissible(entries[i]) && RowAdmissible(entries[j]);
    assert entries[i].key == entries[j].key;
    RankFacts(entries[i].key, entries[j].key);
  }

  /** `support_for`: the first row with exactly this key. */
  function SupportFor(entries: seq<SupportMatrixEntry>, key: SupportKey): (r: Option<SupportMatrixEntry>)
    ensures r.Some? ==> r.value in entries && r.value.key == key
    ensures r.None? <==> forall i :: 0 <= i < |entries| ==> entries[i].key != key
  {
    if entries == [] then None
    else if entries[0].key == key then Some(entries[0])
    else SupportFor(entries[1..], key)
  }

  /** In an accepted matrix lookup finds every row by its own key. */
  lemma SupportForFinds(entries: seq<SupportMatrixEntry>, i: nat)
    requires ValidMatrix(entries) && i < |entries|
    ensures SupportFor(entries, entries[i].key) == Some(entries[i])
  {
    var r := SupportFor(entries, entries[i].key);
    assert r.Some?;
    var j :| 0 <= j < |entries| && entries[j] == r.value;
    RankFacts(entries[i].key, entries[j].key);
  }

  /** Every declared row is x86-64 on both sides and carries no evidence. */
  function Row(host: HostOs, provider: ProviderId, accelerator: Accelerator, guest: GuestOs,
               transport: GuestTransport, status: SupportStatus): SupportMatrixEntry
  {
    SupportMatrixEntry(SupportKey(host, X86_64, provider, accelerator, guest, X86_64, transport), status, [])
  }

  function DeclaredRow(k: nat): SupportMatrixEntry {
    match k
    case 0 => Row(WindowsHost, Hyperv, HyperV, WindowsGuest, PowerShellDirect, Untested)
    case 1 => Row(WindowsHost, Hyperv, Whpx, WindowsGuest, PowerShellDirect, Unsupported)
    case 2 => Row(WindowsHost, Qemu, Whpx, WindowsGuest, Qga, Unsupported)
    case 3 => Row(WindowsHost, Qemu, Whpx, LinuxGuest, Qga, Untested)
    case 4 => Row(WindowsHost, Qemu, Whpx, LinuxGuest, Ssh, Unsupported)
    case 5 => Row(WindowsHost, Qemu, Tcg, LinuxGuest, Qga, DevelopmentOnly)
    case 6 => Row(LinuxHost, Qemu, Kvm, WindowsGuest, Qga, Unsupported)
    case 7 => Row(LinuxHost, Qemu, Kvm, LinuxGuest, Qga, Untested)
    case 8 => Row(LinuxHost, Qemu, Kvm, LinuxGuest, Ssh, Unsupported)
    case _ => Row(LinuxHost, Qemu, Tcg, LinuxGuest, Qga, DevelopmentOnly)
  }

  const SUPPORT_MATRIX: seq<SupportMatrixEntry> := seq(10, k requires 0 <= k => DeclaredRow(k))

  lemma {:induction false} NeighboursSuffice(entries: seq<SupportMatrixEntry>, i: nat, j: nat)
    requires i < j < |entries|
    requires forall k :: 0 < k < |entries| ==> Follows(entries[k - 1], entries[k])
    ensures Follows(entries[i], entries[j])
    decreases j
  {
    if i < j - 1 {
      NeighboursSuffice(entries, i, j - 1);
    }
    assert Follows(entries[j - 1], entries[j]);
  }

  /** Checking neighbours is enough: canonical order is transitive. */
  lemma ValidFromNeighbours(entries: seq<SupportMatrixEntry>)
    requires entries != []
    requires forall k :: 0 <= k < |entries| ==> RowAdmissible(entries[k])
    requires forall k :: 0 < k < |entries| ==> Follows(entries[k - 1], entries[k])
    ensures ValidMatrix(entries)
  {
    forall i, j | 0 <= i < j < |entries|
      ensures Before(SupportKeyRank(entries[i].key), SupportKeyRank(entries[j].key))
    {
      NeighboursSuffice(entries, i, j);
    }
  }

  lemma DeclaredRowAdmissible(k: nat)
    requires k < 10
    ensures RowAdmissible(DeclaredRow(k))
  {
  }

  lemma WindowsRowFollows(k: nat)
    requires 0 < k < 6
    ensures Follows(DeclaredRow(k - 1), DeclaredRow(k))
  {
  }

  lemma LinuxRowFollows(k: nat)
    requires 6 <= k < 10
    ensures Follows(DeclaredRow(k - 1), DeclaredRow(k))
  {
  }

  lemma DeclaredRowFollows(k: nat)
    requires 0 < k < 10
    ensures Follows(DeclaredRow(k - 1), DeclaredRow(k))
  {
    hide Follows, DeclaredRow;
    if k < 6 {
      WindowsRowFollows(k);
    } else {
      LinuxRowFollows(k);
    }
  }

  /** The matrix this program ships is accepted by its own validator. */
  lemma ProductionMatrixValid()
    ensures ValidMatrix(SUPPORT_MATRIX)
  {
    var m := SUPPORT_MATRIX;
    forall k | 0 <= k < |m|
      ensures RowAdmissible(m[k])
    {
      DeclaredRowAdmissible(k);
    }
    forall k | 0 < k < |m|
      ensures Follows(m[k - 1], m[k])
    {
      DeclaredRowFollows(k);
    }
    ValidFromNeighbours(m);
  }
}
