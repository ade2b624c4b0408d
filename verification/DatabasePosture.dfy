/** The startup gates: from the posture the queries return to an error text. */
module DatabasePosture {
  import opened Sequences
  import opened Text
  import opened Sorting
  import opened RoleGraph

  datatype ApiPosture = ApiPosture(
    roleName: string,
    superuser: bool,
    bypassRLS: bool,
    ownsCurrentDatabase: bool,
    canCreateCurrentDatabase: bool,
    ownsPublicSchema: bool,
    canCreatePublicSchema: bool,
    missingAPIMembership: bool,
    unexpectedMemberships: seq<string>,
    evidenceOwnerMemberships: seq<string>,
    ownedPublicRelations: seq<string>,
    ownedProtectedRelations: seq<string>,
    missingTablePrivileges: seq<string>,
    unexpectedTablePrivileges: seq<string>,
    unexpectedSequenceGrants: seq<string>,
    writableImmutableLedgers: seq<string>,
    missingCapabilities: seq<string>,
    misconfiguredCapabilities: seq<string>,
    workerCapabilities: seq<string>,
    publicPrivileges: seq<string>,
    unexpectedDefiners: seq<string>,
    queueIsolationViolations: seq<string>)

  datatype WorkerPosture = WorkerPosture(
    roleName: string,
    superuser: bool,
    bypassRLS: bool,
    ownsCurrentDatabase: bool,
    canCreateCurrentDatabase: bool,
    ownsPublicSchema: bool,
    canCreatePublicSchema: bool,
    missingSchedulerMembership: bool,
    unexpectedMemberships: seq<string>,
    forbiddenMemberships: seq<string>,
    ownedPublicRelations: seq<string>,
    ownedProtectedRelations: seq<string>,
    writableEvidenceLedgers: seq<string>,
    missingTablePrivileges: seq<string>,
    unexpectedTablePrivileges: seq<string>,
    unexpectedSequenceGrants: seq<string>,
    missingCapabilities: seq<string>,
    misconfiguredCapabilities: seq<string>,
    forbiddenCapabilities: seq<string>,
    publicPrivileges: seq<string>,
    unexpectedDefiners: seq<string>,
    queueIsolationViolations: seq<string>)

  /** The violations either gate can report. */
  datatype Message =
    | IsSuperuser | HasBypassRLS | OwnsDatabase | CreatesSchemas | OwnsPublicSchema | CreatesInPublicSchema
    | NotInApi | UnexpectedMembership | EvidenceOwnerMembership | OwnsPublicRelations | OwnsEvidenceRelations
    | LacksApiPrivileges | ExcessApiPrivileges | SequencePrivileges | WritesImmutableLedgers
    | LacksEvidenceCapabilities | UnsafeEvidenceCapabilities | ExecutesWorkerCapabilities | PublicPrivileges
    | UnreviewedDefiners | UnsafeIsolation | LacksWorkerPrivileges | LacksWorkerCapabilities
    | UnsafeWorkerCapabilities | NotInScheduler | ForbiddenMembership | OwnsProtectedRelations
    | ExcessWorkerPrivileges | WritesEvidenceLedgers | ExecutesApiCapabilities
  {
    function Text(): string {
      match this
      case IsSuperuser => "role is SUPERUSER"
      case HasBypassRLS => "role has BYPASSRLS"
      case OwnsDatabase => "role owns or can assume the current database owner"
      case CreatesSchemas => "role can create schemas in the current database"
      case OwnsPublicSchema => "role owns or can assume the public schema owner"
      case CreatesInPublicSchema => "role can create objects in the public schema"
      case NotInApi => "role is not a member of complianceforge_api"
      case UnexpectedMembership => "role has unexpected memberships"
      case EvidenceOwnerMembership => "role is a member of evidence capability owner roles"
      case OwnsPublicRelations => "role owns or can assume owners of public relations"
      case OwnsEvidenceRelations => "role owns protected evidence relations"
      case LacksApiPrivileges => "role lacks required API table privileges"
      case ExcessApiPrivileges => "role has table privileges outside the API allowlist"
      case SequencePrivileges => "role has unexpected sequence privileges"
      case WritesImmutableLedgers => "role can write immutable evidence ledgers directly"
      case LacksEvidenceCapabilities => "role lacks required evidence capabilities"
      case UnsafeEvidenceCapabilities => "evidence capabilities have unsafe definitions"
      case ExecutesWorkerCapabilities => "role can execute worker-only capabilities"
      case PublicPrivileges => "PUBLIC has runtime data/function privileges"
      case UnreviewedDefiners => "role can execute unreviewed SECURITY DEFINER routines"
      case UnsafeIsolation => "runtime schema/temporary/queue isolation has unsafe definitions"
      case LacksWorkerPrivileges => "role lacks required worker table privileges"
      case LacksWorkerCapabilities => "role lacks required worker capabilities"
      case UnsafeWorkerCapabilities => "worker capabilities have unsafe definitions"
      case NotInScheduler => "role is not a member of complianceforge_scheduler"
      case ForbiddenMembership => "role has forbidden API/owner memberships"
      case OwnsProtectedRelations => "role owns or can assume owners of protected relations"
      case ExcessWorkerPrivileges => "role has table privileges outside the worker allowlist"
      case WritesEvidenceLedgers => "role can write protected evidence ledgers directly"
      case ExecutesApiCapabilities => "role can execute API-only evidence capabilities"
    }
  }

  /** One test of a posture and the message it adds when it finds something. */
  datatype Finding = Flag(found: bool, message: Message) | Listed(values: seq<string>, message: Message)

  function ApiFlags(p: ApiPosture): seq<Finding> {
    [ Flag(p.superuser, IsSuperuser),
      Flag(p.bypassRLS, HasBypassRLS),
      Flag(p.ownsCurrentDatabase, OwnsDatabase),
      Flag(p.canCreateCurrentDatabase, CreatesSchemas),
      Flag(p.ownsPublicSchema, OwnsPublicSchema),
      Flag(p.canCreatePublicSchema, CreatesInPublicSchema),
      Flag(p.missingAPIMembership, NotInApi) ]
  }

  function ApiLists(p: ApiPosture): seq<Finding> {
    [ Listed(p.unexpectedMemberships, UnexpectedMembership),
      Listed(p.evidenceOwnerMemberships, EvidenceOwnerMembership),
      Listed(p.ownedPublicRelations, OwnsPublicRelations),
      Listed(p.ownedProtectedRelations, OwnsEvidenceRelations),
      Listed(p.missingTablePrivileges, LacksApiPrivileges),
      Listed(p.unexpectedTablePrivileges, ExcessApiPrivileges),
      Listed(p.unexpectedSequenceGrants, SequencePrivileges),
      Listed(p.writableImmutableLedgers, WritesImmutableLedgers),
      Listed(p.missingCapabilities, LacksEvidenceCapabilities),
      Listed(p.misconfiguredCapabilities, UnsafeEvidenceCapabilities),
      Listed(p.workerCapabilities, ExecutesWorkerCapabilities),
      Listed(p.publicPrivileges, PublicPrivileges),
      Listed(p.unexpectedDefiners, UnreviewedDefiners),
      Listed(p.queueIsolationViolations, UnsafeIsolation) ]
  }

  function ApiFindings(p: ApiPosture): seq<Finding> {
    ApiFlags(p) + ApiLists(p)
  }

  /** What the worker gate checks outside production too. */
  function WorkerLists(p: WorkerPosture): seq<Finding> {
    [ Listed(p.missingTablePrivileges, LacksWorkerPrivileges),
      Listed(p.missingCapabilities, LacksWorkerCapabilities),
      Listed(p.misconfiguredCapabilities, UnsafeWorkerCapabilities) ]
  }

  function WorkerProductionFlags(p: WorkerPosture): seq<Finding> {
    [ Flag(p.superuser, IsSuperuser),
      Flag(p.bypassRLS, HasBypassRLS),
      Flag(p.ownsCurrentDatabase, OwnsDatabase),
      Flag(p.canCreateCurrentDatabase, CreatesSchemas),
      Flag(p.ownsPublicSchema, OwnsPublicSchema),
      Flag(p.canCreatePublicSchema, CreatesInPublicSchema),
      Flag(p.missingSchedulerMembership, NotInScheduler) ]
  }

  function WorkerProductionLists(p: WorkerPosture): seq<Finding> {
    [ Listed(p.unexpectedMemberships, UnexpectedMembership),
      Listed(p.forbiddenMemberships, ForbiddenMembership),
      Listed(p.ownedPublicRelations, OwnsPublicRelations),
      Listed(p.ownedProtectedRelations, OwnsProtectedRelations),
      Listed(p.unexpectedTablePrivileges, ExcessWorkerPrivileges),
      Listed(p.unexpectedSequenceGrants, SequencePrivileges),
      Listed(p.writableEvidenceLedgers, WritesEvidenceLedgers),
      Listed(p.forbiddenCapabilities, ExecutesApiCapabilities),
      Listed(p.publicPrivileges, PublicPrivileges),
      Listed(p.unexpectedDefiners, UnreviewedDefiners),
      Listed(p.queueIsolationViolations, UnsafeIsolation) ]
  }

  function WorkerFindings(p: WorkerPosture, production: bool): seq<Finding> {
    WorkerLists(p) + if production then WorkerProductionFlags(p) + WorkerProductionLists(p) else []
  }

  function JoinText(parts: seq<string>, sep: string): string {
    if |parts| == 0 then "" else if |parts| == 1 then parts[0] else parts[0] + sep + JoinText(parts[1..], sep)
  }

  predicate Quiet(f: Finding) {
    match f
    case Flag(found, _) => !found
    case Listed(values, _) => values == []
  }

  /** The text of one violation. */
  function Line(f: Finding): string {
    match f
    case Flag(_, message) => message.Text()
    case Listed(values, message) => message.Text() + ": " + JoinText(Sort(values), ", ")
  }

  /** What a finding adds to the violations. */
  function Violation(line: Finding -> string, f: Finding): seq<string> {
    if Quiet(f) then [] else [line(f)]
  }

  function Report(line: Finding -> string, findings: seq<Finding>): seq<string> {
    if findings == [] then []
    else Report(line, findings[..|findings| - 1]) + Violation(line, findings[|findings| - 1])
  }

  datatype Gate = Accepted | EmptyRole | Unsafe(text: string)

  /** quote is %q; the prefix names the gate. */
  function GateOf(quote: string -> string, prefix: string, roleName: string, findings: seq<Finding>): Gate {
    var role := TrimSpace(roleName);
    var violations := Report(Line, findings);
    if role == "" then EmptyRole
    else if violations == [] then Accepted
    else Unsafe(prefix + quote(role) + ": " + JoinText(violations, "; "))
  }

  const API_PREFIX := "unsafe production API database role "
  const WORKER_PREFIX := "unsafe worker database role "

  function ApiGate(quote: string -> string, p: ApiPosture): Gate {
    GateOf(quote, API_PREFIX, p.roleName, ApiFindings(p))
  }

  function WorkerGate(quote: string -> string, p: WorkerPosture, production: bool): Gate {
    GateOf(quote, WORKER_PREFIX, p.roleName, WorkerFindings(p, production))
  }

  // ----------------------------------------------------------------- the code

  /** The slice of violations behind a pointer. */
  class Violations {
    var items: seq<string>

    constructor ()
      ensures items == []
    {
      items := [];
    }
  }

  /** A non-empty list adds one violation naming its values in order; the list
      itself, shared with the caller, is not reordered. */
  method AppendPostureListViolation(violations: Violations, message: Message, values: array<string>)
    modifies violations
    ensures violations.items == old(violations.items) + Violation(Line, Listed(values[..], message))
  {
    if values.Length == 0 {
      return;
    }
    var copied := values[..];
    var sorted := new string[|copied|](k requires 0 <= k < |copied| => copied[k]);
    assert sorted[..] == copied;
    SortStrings(sorted);
    violations.items := violations.items + [message.Text() + ": " + JoinText(sorted[..], ", ")];
  }

  lemma ReportExtends(line: Finding -> string, findings: seq<Finding>, k: nat)
    requires k < |findings|
    ensures Report(line, findings[..k + 1]) == Report(line, findings[..k]) + Violation(line, findings[k])
  {
    assert findings[..k + 1][..k] == findings[..k];
  }

  /** Each finding in turn adds its violation; any makes the gate refuse. */
  method ValidatePosture(quote: string -> string, prefix: string, roleName: string, findings: seq<Finding>)
    returns (gate: Gate)
    ensures gate == GateOf(quote, prefix, roleName, findings)
  {
    var role := TrimSpace(roleName);
    if role == "" {
      return EmptyRole;
    }
    var violations := new Violations();
    for k := 0 to |findings|
      invariant fresh(violations) && violations.items == Report(Line, findings[..k])
    {
      ReportExtends(Line, findings, k);
      match findings[k]
      case Flag(found, message) =>
        if found {
          violations.items := violations.items + [message.Text()];
        }
      case Listed(values, message) =>
        var list := new string[|values|](j requires 0 <= j < |values| => values[j]);
        assert list[..] == values;
        AppendPostureListViolation(violations, message, list);
    }
    assert findings[..|findings|] == findings;
    if |violations.items| > 0 {
      return Unsafe(prefix + quote(role) + ": " + JoinText(violations.items, "; "));
    }
    gate := Accepted;
  }

  // ----------------------------------------------------------------- reports

  lemma QuietIsSilent(line: Finding -> string, f: Finding)
    ensures Violation(line, f) == [] <==> Quiet(f)
  {
  }

  ghost predicate AllQuiet(findings: seq<Finding>) {
    forall k | 0 <= k < |findings| :: Quiet(findings[k])
  }

  lemma {:induction false} SilentExactly(line: Finding -> string, findings: seq<Finding>)
    ensures Report(line, findings) == [] <==> AllQuiet(findings)
  {
    if findings != [] {
      var n := |findings| - 1;
      var init, last := findings[..n], findings[n];
      SilentExactly(line, init);
      QuietIsSilent(line, last);
      assert |Report(line, findings)| == |Report(line, init)| + |Violation(line, last)|;
      assert findings == init + [last];
      assert forall k | 0 <= k < n :: init[k] == findings[k];
    }
  }

  /** Equal but for the order of the values in each list. */
  ghost predicate SameUpToOrder(f: seq<Finding>, g: seq<Finding>) {
    && |f| == |g|
    && forall k | 0 <= k < |f| ::
         && f[k].message == g[k].message && f[k].Flag? == g[k].Flag?
         && (f[k].Flag? ==> f[k].found == g[k].found)
         && (f[k].Listed? ==> multiset(f[k].values) == multiset(g[k].values))
  }

  /** The error text does not depend on the order in which the query lists values. */
  lemma {:induction false} OrderDoesNotMatter(f: seq<Finding>, g: seq<Finding>)
    requires SameUpToOrder(f, g)
    ensures Report(Line, f) == Report(Line, g)
  {
    if f != [] {
      var n := |f| - 1;
      OrderDoesNotMatter(f[..n], g[..n]);
      if f[n].Listed? {
        PermutationsSortAlike(f[n].values, g[n].values);
        assert |f[n].values| == |multiset(f[n].values)| == |multiset(g[n].values)| == |g[n].values|;
      }
    }
  }

  lemma GateIgnoresOrder(quote: string -> string, prefix: string, roleName: string, f: seq<Finding>, g: seq<Finding>)
    ensures SameUpToOrder(f, g) ==> GateOf(quote, prefix, roleName, f) == GateOf(quote, prefix, roleName, g)
  {
    if SameUpToOrder(f, g) {
      OrderDoesNotMatter(f, g);
    }
  }

  /** So permuted postures get the same verdict with the same text. */
  lemma ApiGateIgnoresOrder(quote: string -> string, p: ApiPosture, q: ApiPosture)
    requires p.roleName == q.roleName && SameUpToOrder(ApiFindings(p), ApiFindings(q))
    ensures ApiGate(quote, p) == ApiGate(quote, q)
  {
    GateIgnoresOrder(quote, API_PREFIX, p.roleName, ApiFindings(p), ApiFindings(q));
  }

  lemma WorkerGateIgnoresOrder(quote: string -> string, p: WorkerPosture, q: WorkerPosture, production: bool)
    requires p.roleName == q.roleName && SameUpToOrder(WorkerFindings(p, production), WorkerFindings(q, production))
    ensures WorkerGate(quote, p, production) == WorkerGate(quote, q, production)
  {
    GateIgnoresOrder(quote, WORKER_PREFIX, p.roleName, WorkerFindings(p, production), WorkerFindings(q, production));
  }

  // -------------------------------------------------------- field by field

  ghost predicate ClearApiFlags(p: ApiPosture) {
    && !p.superuser && !p.bypassRLS && !p.ownsCurrentDatabase && !p.canCreateCurrentDatabase
    && !p.ownsPublicSchema && !p.canCreatePublicSchema && !p.missingAPIMembership
  }

  ghost predicate EmptyApiLists(p: ApiPosture) {
    && p.unexpectedMemberships == [] && p.evidenceOwnerMemberships == [] && p.ownedPublicRelations == []
    && p.ownedProtectedRelations == [] && p.missingTablePrivileges == [] && p.unexpectedTablePrivileges == []
    && p.unexpectedSequenceGrants == [] && p.writableImmutableLedgers == [] && p.missingCapabilities == []
    && p.misconfiguredCapabilities == [] && p.workerCapabilities == [] && p.publicPrivileges == []
    && p.unexpectedDefiners == [] && p.queueIsolationViolations == []
  }

  ghost predicate EmptyWorkerLists(p: WorkerPosture) {
    && p.missingTablePrivileges == [] && p.missingCapabilities == [] && p.misconfiguredCapabilities == []
  }

  ghost predicate ClearWorkerFlags(p: WorkerPosture) {
    && !p.superuser && !p.bypassRLS && !p.ownsCurrentDatabase && !p.canCreateCurrentDatabase
    && !p.ownsPublicSchema && !p.canCreatePublicSchema && !p.missingSchedulerMembership
  }

  ghost predicate EmptyProductionLists(p: WorkerPosture) {
    && p.unexpectedMemberships == [] && p.forbiddenMemberships == [] && p.ownedPublicRelations == []
    && p.ownedProtectedRelations == [] && p.unexpectedTablePrivileges == []
    && p.unexpectedSequenceGrants == [] && p.writableEvidenceLedgers == [] && p.forbiddenCapabilities == []
    && p.publicPrivileges == [] && p.unexpectedDefiners == [] && p.queueIsolationViolations == []
  }

  lemma ApiFlagsExactly(p: ApiPosture)
    ensures AllQuiet(ApiFlags(p)) <==> ClearApiFlags(p)
  {
    var f := ApiFlags(p);
    if AllQuiet(f) {
      assert Quiet(f[0]) && Quiet(f[1]) && Quiet(f[2]) && Quiet(f[3]) && Quiet(f[4]) && Quiet(f[5]) && Quiet(f[6]);
    }
  }

  lemma ApiListsExactly(p: ApiPosture)
    ensures AllQuiet(ApiLists(p)) <==> EmptyApiLists(p)
  {
    var f := ApiLists(p);
    if AllQuiet(f) {
      assert Quiet(f[0]) && Quiet(f[1]) && Quiet(f[2]) && Quiet(f[3]) && Quiet(f[4]) && Quiet(f[5]) && Quiet(f[6]);
      assert Quiet(f[7]) && Quiet(f[8]) && Quiet(f[9]) && Quiet(f[10]) && Quiet(f[11]) && Quiet(f[12]) && Quiet(f[13]);
    }
  }

  lemma WorkerListsExactly(p: WorkerPosture)
    ensures AllQuiet(WorkerLists(p)) <==> EmptyWorkerLists(p)
  {
    var f := WorkerLists(p);
    if AllQuiet(f) {
      assert Quiet(f[0]) && Quiet(f[1]) && Quiet(f[2]);
    }
  }

  lemma WorkerFlagsExactly(p: WorkerPosture)
    ensures AllQuiet(WorkerProductionFlags(p)) <==> ClearWorkerFlags(p)
  {
    var f := WorkerProductionFlags(p);
    if AllQuiet(f) {
      assert Quiet(f[0]) && Quiet(f[1]) && Quiet(f[2]) && Quiet(f[3]) && Quiet(f[4]) && Quiet(f[5]) && Quiet(f[6]);
    }
  }

  lemma ProductionListsExactly(p: WorkerPosture)
    ensures AllQuiet(WorkerProductionLists(p)) <==> EmptyProductionLists(p)
  {
    var f := WorkerProductionLists(p);
    if AllQuiet(f) {
      assert Quiet(f[0]) && Quiet(f[1]) && Quiet(f[2]) && Quiet(f[3]) && Quiet(f[4]) && Quiet(f[5]) && Quiet(f[6]);
      assert Quiet(f[7]) && Quiet(f[8]) && Quiet(f[9]) && Quiet(f[10]);
    }
  }

  lemma QuietSides(a: seq<Finding>, b: seq<Finding>)
    ensures AllQuiet(a + b) <==> AllQuiet(a) && AllQuiet(b)
  {
    if AllQuiet(a + b) {
      forall k | 0 <= k < |a| ensures Quiet(a[k]) {
        assert (a + b)[k] == a[k];
      }
      forall k | 0 <= k < |b| ensures Quiet(b[k]) {
        assert (a + b)[|a| + k] == b[k];
      }
    }
  }

  /** The API gate accepts a posture exactly if it names a role, all seven flags are
      clear and all fourteen lists are empty. */
  lemma ApiAcceptedExactly(quote: string -> string, p: ApiPosture)
    ensures ApiGate(quote, p).EmptyRole? <==> TrimSpace(p.roleName) == ""
    ensures ApiGate(quote, p).Accepted? <==> TrimSpace(p.roleName) != "" && ClearApiFlags(p) && EmptyApiLists(p)
  {
    SilentExactly(Line, ApiFindings(p));
    QuietSides(ApiFlags(p), ApiLists(p));
    ApiFlagsExactly(p);
    ApiListsExactly(p);
  }

  /** The worker gate looks at three lists everywhere and at the other fields in
      production. */
  lemma WorkerAcceptedExactly(quote: string -> string, p: WorkerPosture, production: bool)
    ensures WorkerGate(quote, p, production).EmptyRole? <==> TrimSpace(p.roleName) == ""
    ensures WorkerGate(quote, p, production).Accepted? <==>
            && TrimSpace(p.roleName) != ""
            && EmptyWorkerLists(p)
            && (production ==> ClearWorkerFlags(p) && EmptyProductionLists(p))
  {
    SilentExactly(Line, WorkerFindings(p, production));
    QuietSides(WorkerProductionFlags(p), WorkerProductionLists(p));
    QuietSides(WorkerLists(p), if production then WorkerProductionFlags(p) + WorkerProductionLists(p) else []);
    WorkerListsExactly(p);
    WorkerFlagsExactly(p);
    ProductionListsExactly(p);
  }

  /** What production accepts, any other environment accepts. */
  lemma ProductionIsStricter(quote: string -> string, p: WorkerPosture)
    requires WorkerGate(quote, p, true).Accepted?
    ensures WorkerGate(quote, p, false).Accepted?
  {
    WorkerAcceptedExactly(quote, p, true);
    WorkerAcceptedExactly(quote, p, false);
  }

  /** The field of a posture that a message is about; there may be none. */
  function ApiField(p: ApiPosture, m: Message): Finding {
    match m
    case CreatesInPublicSchema => Flag(p.canCreatePublicSchema, m)
    case CreatesSchemas => Flag(p.canCreateCurrentDatabase, m)
    case EvidenceOwnerMembership => Listed(p.evidenceOwnerMemberships, m)
    case ExcessApiPrivileges => Listed(p.unexpectedTablePrivileges, m)
    case ExecutesWorkerCapabilities => Listed(p.workerCapabilities, m)
    case HasBypassRLS => Flag(p.bypassRLS, m)
    case IsSuperuser => Flag(p.superuser, m)
    case LacksApiPrivileges => Listed(p.missingTablePrivileges, m)
    case LacksEvidenceCapabilities => Listed(p.missingCapabilities, m)
    case NotInApi => Flag(p.missingAPIMembership, m)
    case OwnsDatabase => Flag(p.ownsCurrentDatabase, m)
    case OwnsEvidenceRelations => Listed(p.ownedProtectedRelations, m)
    case OwnsPublicRelations => Listed(p.ownedPublicRelations, m)
    case OwnsPublicSchema => Flag(p.ownsPublicSchema, m)
    case PublicPrivileges => Listed(p.publicPrivileges, m)
    case SequencePrivileges => Listed(p.unexpectedSequenceGrants, m)
    case UnexpectedMembership => Listed(p.unexpectedMemberships, m)
    case UnreviewedDefiners => Listed(p.unexpectedDefiners, m)
    case UnsafeEvidenceCapabilities => Listed(p.misconfiguredCapabilities, m)
    case UnsafeIsolation => Listed(p.queueIsolationViolations, m)
    case WritesImmutableLedgers => Listed(p.writableImmutableLedgers, m)
    case _ => Flag(false, m)
  }

  function WorkerField(p: WorkerPosture, m: Message): Finding {
    match m
    case CreatesInPublicSchema => Flag(p.canCreatePublicSchema, m)
    case CreatesSchemas => Flag(p.canCreateCurrentDatabase, m)
    case ExcessWorkerPrivileges => Listed(p.unexpectedTablePrivileges, m)
    case ExecutesApiCapabilities => Listed(p.forbiddenCapabilities, m)
    case ForbiddenMembership => Listed(p.forbiddenMemberships, m)
    case HasBypassRLS => Flag(p.bypassRLS, m)
    case IsSuperuser => Flag(p.superuser, m)
    case LacksWorkerCapabilities => Listed(p.missingCapabilities, m)
    case LacksWorkerPrivileges => Listed(p.missingTablePrivileges, m)
    case NotInScheduler => Flag(p.missingSchedulerMembership, m)
    case OwnsDatabase => Flag(p.ownsCurrentDatabase, m)
    case OwnsProtectedRelations => Listed(p.ownedProtectedRelations, m)
    case OwnsPublicRelations => Listed(p.ownedPublicRelations, m)
    case OwnsPublicSchema => Flag(p.ownsPublicSchema, m)
    case PublicPrivileges => Listed(p.publicPrivileges, m)
    case SequencePrivileges => Listed(p.unexpectedSequenceGrants, m)
    case UnexpectedMembership => Listed(p.unexpectedMemberships, m)
    case UnreviewedDefiners => Listed(p.unexpectedDefiners, m)
    case UnsafeIsolation => Listed(p.queueIsolationViolations, m)
    case UnsafeWorkerCapabilities => Listed(p.misconfiguredCapabilities, m)
    case WritesEvidenceLedgers => Listed(p.writableEvidenceLedgers, m)
    case _ => Flag(false, m)
  }

  /** The place of a message among the violations. */
  function ApiRank(m: Message): nat {
    match m
    case IsSuperuser => 0
    case HasBypassRLS => 1
    case OwnsDatabase => 2
    case CreatesSchemas => 3
    case OwnsPublicSchema => 4
    case CreatesInPublicSchema => 5
    case NotInApi => 6
    case UnexpectedMembership => 7
    case EvidenceOwnerMembership => 8
    case OwnsPublicRelations => 9
    case OwnsEvidenceRelations => 10
    case LacksApiPrivileges => 11
    case ExcessApiPrivileges => 12
    case SequencePrivileges => 13
    case WritesImmutableLedgers => 14
    case LacksEvidenceCapabilities => 15
    case UnsafeEvidenceCapabilities => 16
    case ExecutesWorkerCapabilities => 17
    case PublicPrivileges => 18
    case UnreviewedDefiners => 19
    case UnsafeIsolation => 20
    case _ => 21
  }

  function WorkerRank(m: Message): nat {
    match m
    case LacksWorkerPrivileges => 0
    case LacksWorkerCapabilities => 1
    case UnsafeWorkerCapabilities => 2
    case IsSuperuser => 3
    case HasBypassRLS => 4
    case OwnsDatabase => 5
    case CreatesSchemas => 6
    case OwnsPublicSchema => 7
    case CreatesInPublicSchema => 8
    case NotInScheduler => 9
    case UnexpectedMembership => 10
    case ForbiddenMembership => 11
    case OwnsPublicRelations => 12
    case OwnsProtectedRelations => 13
    case ExcessWorkerPrivileges => 14
    case SequencePrivileges => 15
    case WritesEvidenceLedgers => 16
    case ExecutesApiCapabilities => 17
    case PublicPrivileges => 18
    case UnreviewedDefiners => 19
    case UnsafeIsolation => 20
    case _ => 21
  }

  lemma ApiFlagIsAField(p: ApiPosture, k: nat)
    requires k < |ApiFlags(p)|
    ensures var f := ApiFlags(p)[k];
            ApiField(p, f.message) == f && ApiRank(f.message) == k
  {
  }

  lemma ApiFlagIsFound(p: ApiPosture, m: Message)
    requires ApiRank(m) < 7
    ensures ApiFlags(p)[ApiRank(m)].message == m
  {
  }

  lemma ApiListIsAField(p: ApiPosture, k: nat)
    requires k < |ApiLists(p)|
    ensures var f := ApiLists(p)[k];
            ApiField(p, f.message) == f && ApiRank(f.message) == 7 + k
  {
  }

  lemma ApiListIsFound(p: ApiPosture, m: Message)
    requires 7 <= ApiRank(m) < 21
    ensures ApiLists(p)[ApiRank(m) - 7].message == m
  {
  }

  lemma WorkerListIsAField(p: WorkerPosture, k: nat)
    requires k < |WorkerLists(p)|
    ensures var f := WorkerLists(p)[k];
            WorkerField(p, f.message) == f && WorkerRank(f.message) == k
  {
  }

  lemma WorkerListIsFound(p: WorkerPosture, m: Message)
    requires WorkerRank(m) < 3
    ensures WorkerLists(p)[WorkerRank(m)].message == m
  {
  }

  lemma ProductionFlagIsAField(p: WorkerPosture, k: nat)
    requires k < |WorkerProductionFlags(p)|
    ensures var f := WorkerProductionFlags(p)[k];
            WorkerField(p, f.message) == f && WorkerRank(f.message) == 3 + k
  {
  }

  lemma ProductionFlagIsFound(p: WorkerPosture, m: Message)
    requires 3 <= WorkerRank(m) < 10
    ensures WorkerProductionFlags(p)[WorkerRank(m) - 3].message == m
  {
  }

  lemma ProductionListIsAField(p: WorkerPosture, k: nat)
    requires k < |WorkerProductionLists(p)|
    ensures var f := WorkerProductionLists(p)[k];
            WorkerField(p, f.message) == f && WorkerRank(f.message) == 10 + k
  {
  }

  lemma ProductionListIsFound(p: WorkerPosture, m: Message)
    requires 10 <= WorkerRank(m) < 21
    ensures WorkerProductionLists(p)[WorkerRank(m) - 10].message == m
  {
  }

  /** Every finding is about the field its message is about, and stands at its place. */
  lemma ApiFindingIsAField(p: ApiPosture, k: nat)
    requires k < |ApiFindings(p)|
    ensures var f := ApiFindings(p)[k];
            ApiField(p, f.message) == f && ApiRank(f.message) == k
  {
    if k < 7 {
      ApiFlagIsAField(p, k);
    } else {
      ApiListIsAField(p, k - 7);
    }
  }

  /** And no message that can show something is without its finding. */
  lemma ApiFieldIsFound(p: ApiPosture, m: Message)
    requires !Quiet(ApiField(p, m))
    ensures ApiRank(m) < 21 && ApiFindings(p)[ApiRank(m)].message == m
  {
    if ApiRank(m) < 7 {
      ApiFlagIsFound(p, m);
    } else {
      ApiListIsFound(p, m);
    }
  }

  lemma WorkerFindingIsAField(p: WorkerPosture, k: nat)
    requires k < |WorkerFindings(p, true)|
    ensures var f := WorkerFindings(p, true)[k];
            WorkerField(p, f.message) == f && WorkerRank(f.message) == k
  {
    if k < 3 {
      WorkerListIsAField(p, k);
    } else if k < 10 {
      ProductionFlagIsAField(p, k - 3);
    } else {
      ProductionListIsAField(p, k - 10);
    }
  }

  /** And no message that can show something is without its finding. */
  lemma WorkerFieldIsFound(p: WorkerPosture, m: Message)
    requires !Quiet(WorkerField(p, m))
    ensures WorkerRank(m) < 21 && WorkerFindings(p, true)[WorkerRank(m)].message == m
  {
    if WorkerRank(m) < 3 {
      WorkerListIsFound(p, m);
    } else if WorkerRank(m) < 10 {
      ProductionFlagIsFound(p, m);
    } else {
      ProductionListIsFound(p, m);
    }
  }

  lemma ReportLast(line: Finding -> string, a: seq<Finding>, b: seq<Finding>, n: nat)
    requires |b| == n + 1
    ensures Report(line, a + b) == Report(line, a + b[..n]) + Violation(line, b[n])
    ensures Report(line, b) == Report(line, b[..n]) + Violation(line, b[n])
  {
    assert (a + b)[..|a| + n] == a + b[..n];
  }

  lemma {:induction false} ReportSides(line: Finding -> string, a: seq<Finding>, b: seq<Finding>)
    ensures Report(line, a + b) == Report(line, a) + Report(line, b)
  {
    if b == [] {
      assert a + b == a;
    } else {
      var n := |b| - 1;
      ReportSides(line, a, b[..n]);
      ReportLast(line, a, b, n);
      Reassociated(Report(line, a), Report(line, b[..n]), Violation(line, b[n]));
    }
  }

  lemma Reassociated(a: seq<string>, b: seq<string>, c: seq<string>)
    ensures a + b + c == a + (b + c)
  {
  }

  /** A finding is reported, if it shows something, between those before it and those
      after it. */
  lemma ReportSplits(line: Finding -> string, before: seq<Finding>, f: Finding, after: seq<Finding>)
    ensures Report(line, before + [f] + after)
            == Report(line, before) + (if Quiet(f) then [] else [line(f)]) + Report(line, after)
  {
    ReportLast(line, before, [f], 0);
    assert before + [f][..0] == before;
    ReportSides(line, before + [f], after);
  }

  /** Where one finding alone shows something, its line is the whole report. */
  lemma {:induction false} OneAloneIsReported(line: Finding -> string, findings: seq<Finding>, k: nat)
    requires k < |findings| && !Quiet(findings[k])
    requires forall j | 0 <= j < |findings| && j != k :: Quiet(findings[j])
    ensures Report(line, findings) == [line(findings[k])]
  {
    var n := |findings| - 1;
    var init := findings[..n];
    if k == n {
      SilentExactly(line, init);
    } else {
      OneAloneIsReported(line, init, k);
    }
  }

  /** Each field alone yields exactly its own message. */
  lemma ApiFieldAlone(quote: string -> string, p: ApiPosture, m: Message)
    requires TrimSpace(p.roleName) != "" && !Quiet(ApiField(p, m))
    requires forall n | n != m :: Quiet(ApiField(p, n))
    ensures ApiGate(quote, p) == Unsafe(API_PREFIX + quote(TrimSpace(p.roleName)) + ": " + Line(ApiField(p, m)))
  {
    var f := ApiFindings(p);
    ApiFieldIsFound(p, m);
    ApiFindingIsAField(p, ApiRank(m));
    forall j | 0 <= j < |f| && j != ApiRank(m) ensures Quiet(f[j]) {
      ApiFindingIsAField(p, j);
    }
    OneAloneIsReported(Line, f, ApiRank(m));
  }

  lemma WorkerFieldAlone(quote: string -> string, p: WorkerPosture, m: Message)
    requires TrimSpace(p.roleName) != "" && !Quiet(WorkerField(p, m))
    requires forall n | n != m :: Quiet(WorkerField(p, n))
    ensures WorkerGate(quote, p, true)
            == Unsafe(WORKER_PREFIX + quote(TrimSpace(p.roleName)) + ": " + Line(WorkerField(p, m)))
  {
    var f := WorkerFindings(p, true);
    WorkerFieldIsFound(p, m);
    WorkerFindingIsAField(p, WorkerRank(m));
    forall j | 0 <= j < |f| && j != WorkerRank(m) ensures Quiet(f[j]) {
      WorkerFindingIsAField(p, j);
    }
    OneAloneIsReported(Line, f, WorkerRank(m));
  }

  /** Joining two non-empty lists puts one separator between them. */
  lemma {:induction false} JoinedSides(a: seq<string>, b: seq<string>, sep: string)
    requires a != [] && b != []
    ensures JoinText(a + b, sep) == JoinText(a, sep) + sep + JoinText(b, sep)
    ensures |a| == 1 ==> JoinText(a, sep) == a[0]
  {
    if |a| == 1 {
      assert (a + b)[1..] == b;
    } else {
      JoinedSides(a[1..], b, sep);
      assert (a + b)[1..] == a[1..] + b;
    }
  }

  lemma JoinedAround(a: seq<string>, x: string, b: seq<string>, sep: string)
    ensures JoinText(a + [x] + b, sep)
            == (if a == [] then "" else JoinText(a, sep) + sep) + x + (if b == [] then "" else sep + JoinText(b, sep))
  {
    if a != [] {
      JoinedSides(a, [x], sep);
    }
    if b != [] {
      JoinedSides(a + [x], b, sep);
    }
    assert a == [] ==> a + [x] == [x];
    assert b == [] ==> a + [x] + b == a + [x];
  }

  /** Whatever a gate finds it names, each finding in its place between the others. */
  lemma EveryFindingIsNamed(quote: string -> string, prefix: string, roleName: string,
      before: seq<Finding>, f: Finding, after: seq<Finding>)
    requires TrimSpace(roleName) != "" && !Quiet(f)
    ensures var lead, trail := Report(Line, before), Report(Line, after);
            GateOf(quote, prefix, roleName, before + [f] + after)
            == Unsafe(prefix + quote(TrimSpace(roleName)) + ": "
                      + ((if lead == [] then "" else JoinText(lead, "; ") + "; ") + Line(f)
                         + (if trail == [] then "" else "; " + JoinText(trail, "; "))))
  {
    ReportSplits(Line, before, f, after);
    JoinedAround(Report(Line, before), Line(f), Report(Line, after), "; ");
  }

  // ------------------------------------------------------------- least privilege

  ghost function Shown(privileges: set<(string, string)>): set<string> {
    set m | m in privileges :: m.0 + ":" + m.1
  }

  /** The posture is what the API query returns for a role, in any order. */
  ghost predicate ApiQueryReturns(c: Catalog, self: nat, manifest: set<(string, string)>, p: ApiPosture)
    requires self in c.roles
  {
    && p.superuser == c.roles[self].superuser
    && p.missingAPIMembership == MissingMembership(c, self, API)
    && ToSet(p.unexpectedMemberships) == UnexpectedMemberships(c, self, API)
    && ToSet(p.missingTablePrivileges) == Shown(MissingPrivileges(c, manifest))
    && ToSet(p.unexpectedTablePrivileges) == Shown(UnexpectedPrivileges(c, manifest))
  }

  ghost predicate WorkerQueryReturns(c: Catalog, self: nat, manifest: set<(string, string)>, p: WorkerPosture)
    requires self in c.roles
  {
    && p.superuser == c.roles[self].superuser
    && p.missingSchedulerMembership == MissingMembership(c, self, SCHEDULER)
    && ToSet(p.unexpectedMemberships) == UnexpectedMemberships(c, self, SCHEDULER)
    && ToSet(p.forbiddenMemberships) == ListedMemberships(c, self, FORBIDDEN_TO_WORKER)
    && ToSet(p.missingTablePrivileges) == Shown(MissingPrivileges(c, manifest))
    && ToSet(p.unexpectedTablePrivileges) == Shown(UnexpectedPrivileges(c, manifest))
  }

  lemma ShownEmpty(privileges: set<(string, string)>)
    ensures Shown(privileges) == {} <==> privileges == {}
  {
    if privileges != {} {
      var m :| m in privileges;
      assert m.0 + ":" + m.1 in Shown(privileges);
    }
  }

  /** A role is confined: a member of itself and one existing group alone, not a
      superuser, holding the manifest and, on tables and views, no more. */
  ghost predicate Confined(c: Catalog, self: nat, group: string, manifest: set<(string, string)>)
    requires self in c.roles
  {
    && !c.roles[self].superuser
    && (exists g | g in c.roles :: c.roles[g].name == group && Member(c, self, g) &&
          forall r | r in c.roles :: Member(c, self, r) <==> r == self || r == g)
    && ExactlyGranted(c, manifest)
  }

  /** Passing the API gate means least privilege. */
  lemma ApiAcceptanceConfines(quote: string -> string, c: Catalog, self: nat, manifest: set<(string, string)>,
      p: ApiPosture)
    requires WellFormed(c) && self in c.roles
    requires ApiQueryReturns(c, self, manifest, p)
    ensures ApiGate(quote, p).Accepted? ==> Confined(c, self, API, manifest)
  {
    if !ApiGate(quote, p).Accepted? {
      return;
    }
    ApiAcceptedExactly(quote, p);
    ShownEmpty(MissingPrivileges(c, manifest));
    ShownEmpty(UnexpectedPrivileges(c, manifest));
    MembershipIsExact(c, self, API);
    PrivilegesAreExact(c, manifest);
  }

  /** Passing the worker gate in production means least privilege. */
  lemma WorkerAcceptanceConfines(quote: string -> string, c: Catalog, self: nat, manifest: set<(string, string)>,
      p: WorkerPosture)
    requires WellFormed(c) && self in c.roles
    requires WorkerQueryReturns(c, self, manifest, p)
    ensures WorkerGate(quote, p, true).Accepted? ==> Confined(c, self, SCHEDULER, manifest)
  {
    if !WorkerGate(quote, p, true).Accepted? {
      return;
    }
    WorkerAcceptedExactly(quote, p, true);
    ShownEmpty(MissingPrivileges(c, manifest));
    ShownEmpty(UnexpectedPrivileges(c, manifest));
    MembershipIsExact(c, self, SCHEDULER);
    PrivilegesAreExact(c, manifest);
  }

  /** No role passes both the API gate and the production worker gate. */
  lemma NoRolePassesBoth(quote: string -> string, c: Catalog, self: nat, m: set<(string, string)>, n: set<(string,
      string)>, p: ApiPosture, w: WorkerPosture)
    requires WellFormed(c) && self in c.roles
    requires ApiQueryReturns(c, self, m, p) && WorkerQueryReturns(c, self, n, w)
    ensures !(ApiGate(quote, p).Accepted? && WorkerGate(quote, w, true).Accepted?)
  {
    if ApiGate(quote, p).Accepted? {
      ApiAcceptedExactly(quote, p);
      GatesExclude(c, self);
    }
    if WorkerGate(quote, w, true).Accepted? {
      WorkerAcceptedExactly(quote, w, true);
    }
  }
}
