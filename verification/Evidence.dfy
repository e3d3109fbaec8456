/** The public evidence of one relay: health boundaries, the four operational tiers
    and the consistency check every projected row must pass. Times are Unix seconds. */
module Evidence {
  import opened Keyset

  const HEALTHY_THROUGH := 36 * 3600
  const STALE_BEFORE := 7 * 86400
  const DEAD_BEFORE := 30 * 86400
  const GRAVEYARD_AFTER := 30 * 86400
  const REACHABILITY_FRESHNESS := 6 * 3600
  const FAILURE_RETRY_MINIMUM := 3600
  const UNREACHABLE_RETRY := 7 * 86400
  const MAXIMUM_FAILURE_STREAK := 4

  datatype Health = NotObserved | Healthy | Stale | Dead | Prune
  datatype ActorState = Unknown | Reachable | Unreachable
  datatype InboxState = NotChecked | Responsive | MethodRejected | InboxUnreachable

  /** What one network probe found, without any text of the remote side. */
  datatype Diagnostic = Diagnostic(stage: string, code: string, status: int)

  const NO_DIAGNOSTIC := Diagnostic("", "", 0)

  predicate ValidDiagnostic(d: Diagnostic) {
    if (d.stage == "actor" || d.stage == "inbox") && d.code == "http_status" then 100 <= d.status <= 599
    else
      && d.status == 0
      && (match d.stage
          case "" => d.code == ""
          case "dns" => d.code in ["nxdomain", "no_address", "temporary", "timeout", "policy", "error"]
          case "connect" => d.code in ["refused", "timeout", "failed"]
          case "tls" => d.code in ["certificate", "handshake"]
          case "policy" => d.code == "prohibited_target"
          case "redirect" => d.code == "rejected"
          case "actor" => d.code in ["content_type", "invalid_document", "invalid_response"]
          case "inbox" => d.code == "invalid_response"
          case "network" => d.code in ["timeout", "error"]
          case _ => false)
  }

  /** Tier 1 is the best; `firstKnown` and the optional times come from the retained rows. */
  datatype Relay = Relay(
    lifecycleKnown: bool, registered: bool, discovered: bool, firstKnown: int, tier: int,
    heartbeat: Health, lastSeen: Option<int>, lastHeartbeat: Option<int>,
    actorState: ActorState, checked: Option<int>, success: Option<int>, nextCheck: Option<int>,
    inboxUrl: string, inboxDeclared: Option<int>, inboxState: InboxState, inboxChecked: Option<int>,
    verified: Option<int>, actorDiagnostic: Diagnostic, inboxDiagnostic: Diagnostic)

  predicate ValidTier(tier: int) { 1 <= tier <= 4 }

  function ClassifyHealth(lastSeen: int, observed: int): Option<Health> {
    if lastSeen < 0 || observed < 0 || lastSeen > observed then None
    else
      var age := observed - lastSeen;
      if age <= HEALTHY_THROUGH then Some(Healthy)
      else if age < STALE_BEFORE then Some(Stale)
      else if age < DEAD_BEFORE then Some(Dead)
      else Some(Prune)
  }

  function ClassifyPublicHeartbeat(lastHeartbeat: Option<int>, observed: int): Option<Health> {
    if observed < 0 then None
    else if lastHeartbeat.None? then Some(NotObserved)
    else ClassifyHealth(lastHeartbeat.value, observed)
  }

  predicate FreshActor(relay: Relay, observed: int) {
    && relay.actorState == Reachable && relay.checked.Some? && relay.success.Some?
    && relay.checked.value == relay.success.value && relay.success.value <= observed
    && relay.success.value >= observed - REACHABILITY_FRESHNESS
  }

  predicate CurrentHeartbeat(relay: Relay, observed: int) {
    && relay.registered && relay.lastHeartbeat.Some?
    && observed - HEALTHY_THROUGH <= relay.lastHeartbeat.value <= observed
  }

  function Later(time: int, other: Option<int>): int {
    if other.Some? && other.value > time then other.value else time
  }

  function LastOnline(relay: Relay): int {
    Later(Later(relay.firstKnown, relay.lastSeen), relay.success)
  }

  function ClassifyTier(relay: Relay, observed: int): Option<int> {
    if observed < 0 || relay.firstKnown < 0 || relay.firstKnown > observed then None
    else if FreshActor(relay, observed) && CurrentHeartbeat(relay, observed) then Some(1)
    else if FreshActor(relay, observed) || CurrentHeartbeat(relay, observed) then Some(2)
    else if LastOnline(relay) <= observed - GRAVEYARD_AFTER then Some(4)
    else Some(3)
  }

  predicate PublicEligible(relay: Relay, observed: int) {
    && observed >= 0 && (relay.lifecycleKnown || relay.discovered) && ValidTier(relay.tier)
    && ClassifyTier(relay, observed) == Some(relay.tier)
  }

  predicate ObservedTime(value: Option<int>, observed: int) {
    value.None? || 0 <= value.value <= observed
  }

  predicate ValidActorTimes(state: ActorState, checked: Option<int>, success: Option<int>) {
    match state
    case Unknown => checked.None? && success.None?
    case Reachable => checked.Some? && success == checked
    case Unreachable => checked.Some? && (success.None? || success.value <= checked.value)
  }

  predicate ValidInbox(url: string, declared: Option<int>, state: InboxState, checked: Option<int>) {
    && (url == "" <==> declared.None?)
    && (state == NotChecked <==> checked.None?)
    && (declared.Some? && checked.Some? ==> declared.value <= checked.value)
  }

  predicate ValidEvidence(relay: Relay, observed: int) {
    && observed >= 0 && (relay.lifecycleKnown || relay.discovered)
    && (relay.registered ==> relay.lifecycleKnown) && ValidTier(relay.tier)
    && 0 <= relay.firstKnown <= observed
    && ClassifyPublicHeartbeat(relay.lastHeartbeat, observed) == Some(relay.heartbeat)
    && (relay.lifecycleKnown ==> relay.lastSeen.Some?)
    && ObservedTime(relay.lastHeartbeat, observed)
    && (relay.lastHeartbeat.Some? ==>
          relay.lastSeen.Some? && relay.lastHeartbeat.value <= relay.lastSeen.value)
    && (relay.nextCheck.None? || 0 <= relay.nextCheck.value <= observed + UNREACHABLE_RETRY)
    && ObservedTime(relay.checked, observed) && ObservedTime(relay.success, observed)
    && ObservedTime(relay.inboxDeclared, observed) && ObservedTime(relay.inboxChecked, observed)
    && ObservedTime(relay.verified, observed)
    && ValidDiagnostic(relay.actorDiagnostic) && ValidDiagnostic(relay.inboxDiagnostic)
    && ValidActorTimes(relay.actorState, relay.checked, relay.success)
    && ValidInbox(relay.inboxUrl, relay.inboxDeclared, relay.inboxState, relay.inboxChecked)
    && ClassifyTier(relay, observed) == Some(relay.tier)
  }

  predicate ValidRelay(relay: Relay, observed: int) {
    ValidEvidence(relay, observed) && PublicEligible(relay, observed)
  }
}
