/** Capability tokens: issued by `cgatc/policy/evaluator.py` through `cgatc/capability/authority.py`,
    enforced by `cgatc/capability/enforcer.py`. */
module Capabilities {
  import opened Primitives
  import opened Exceptions
  import opened Glob
  import opened GlobBrackets

  datatype Constraints = Constraints(
    maxOutputSize: Option<int>,
    allowedExternalTools: seq<string>,
    permittedDataLabels: seq<string>,
    delegationPermitted: bool)

  datatype Capability = Capability(
    capId: Bytes,
    issuer: string,
    subject: Bytes,
    audience: Bytes,
    task: Bytes,
    scopes: seq<string>,
    constraints: Constraints,
    expiry: real,
    notBefore: real,
    nonce: Bytes)

  datatype SignedCapability = SignedCapability(capability: Capability, issuerKey: Bytes, signature: Bytes)

  datatype ActionRequest = ActionRequest(
    subject: Bytes,
    audience: Bytes,
    task: Bytes,
    scope: string,
    outputSize: Option<int>,
    externalTool: Option<string>,
    dataLabel: Option<string>,
    isDelegation: bool)

  /** What checking a capability needs: signature verification over its digest, the reading of
      bracket expressions, and the trusted authority keys. */
  datatype Enforcer = Enforcer(
    digest: Capability -> Digest,
    verify: (Bytes, Bytes, Bytes) -> bool,
    cls: ClassOf,
    trusted: seq<Bytes>)
  {
    /** `Enforcer.check`: the first failing check, if any. */
    function Check(signed: SignedCapability, request: ActionRequest, ts: real): Option<Exc> {
      var cap := signed.capability;
      var c := cap.constraints;
      if !(exists pk :: pk in trusted && verify(digest(cap), signed.signature, pk)) then
        Some(SignatureVerificationError)
      else if ts >= cap.expiry then Some(CapabilityExpiredError)
      else if ts < cap.notBefore - 60.0 then Some(CapabilityExpiredError)
      else if cap.subject != request.subject then Some(CapabilityAudienceError)
      else if cap.audience != request.audience then Some(CapabilityAudienceError)
      else if cap.task != request.task then Some(CapabilityScopeError)
      else if !MatchesAny(cls, request.scope, cap.scopes) then Some(CapabilityScopeError)
      else if request.outputSize.Some? && c.maxOutputSize.Some? && request.outputSize.value > c.maxOutputSize.value then
        Some(CapabilityScopeError)
      else if request.externalTool.Some? && c.allowedExternalTools != []
              && request.externalTool.value !in c.allowedExternalTools then
        Some(CapabilityScopeError)
      else if request.dataLabel.Some? && c.permittedDataLabels != []
              && request.dataLabel.value !in c.permittedDataLabels then
        Some(CapabilityScopeError)
      else if request.isDelegation && !c.delegationPermitted then Some(CapabilityScopeError)
      else None
    }
  }

  datatype RolePolicy = RolePolicy(mayExercise: seq<string>, constraints: Constraints)

  datatype PolicyError = UnknownRole | NoIntersectingScope

  /** `PolicyAuthority`: the key it signs digests with and what it stamps into a token. */
  datatype Authority = Authority(issuer: string, publicKey: Bytes, sign: Bytes -> Bytes, digest: Capability -> Digest)

  const DEFAULT_TTL := 600.0

  function Issue(pa: Authority, capId: Bytes, nonce: Bytes, subject: Bytes, audience: Bytes, task: Bytes,
                 scopes: seq<string>, constraints: Constraints, now: real): SignedCapability {
    var cap := Capability(capId, pa.issuer, subject, audience, task, scopes, constraints,
                          now + DEFAULT_TTL, now, nonce);
    SignedCapability(cap, pa.publicKey, pa.sign(pa.digest(cap)))
  }

  /** `intersect_exercise`: the requested scopes that the role's patterns match, in order. */
  function IntersectExercise(cls: ClassOf, role: RolePolicy, requested: seq<string>): (r: seq<string>)
    ensures forall s :: s in r <==> s in requested && MatchesAny(cls, s, role.mayExercise)
  {
    if requested == [] then []
    else
      (if MatchesAny(cls, requested[0], role.mayExercise) then [requested[0]] else [])
      + IntersectExercise(cls, role, requested[1..])
  }

  /** `issue_capability`. */
  function IssueCapability(pa: Authority, cls: ClassOf, roles: map<string, RolePolicy>, roleName: string,
                           capId: Bytes, nonce: Bytes, subject: Bytes, audience: Bytes, task: Bytes,
                           requested: seq<string>, override: Option<Constraints>, now: real)
    : Result<SignedCapability, PolicyError>
  {
    if roleName !in roles then Failure(UnknownRole)
    else
      var role := roles[roleName];
      var granted := IntersectExercise(cls, role, requested);
      if granted == [] then Failure(NoIntersectingScope)
      else
        var constraints := if override.Some? then override.value else role.constraints;
        Success(Issue(pa, capId, nonce, subject, audience, task, granted, constraints, now))
  }

  /** The pattern `p` bounds what the scope `s`, granted under it, admits: `s` is plain, or `p` has
      neither brackets nor question marks and `s` has no brackets or `p` is anchored. */
  ghost predicate Contains(p: string, s: string) {
    Plain(s) || (NoBracket(p) && '?' !in p && (NoBracket(s) || Anchored(p)))
  }

  /** Some pattern of the role that grants `s` also bounds it. */
  ghost predicate BoundedByRole(cls: ClassOf, role: RolePolicy, s: string) {
    exists p :: p in role.mayExercise && FnMatch(cls, s, p) && Contains(p, s)
  }

  /** Where roles bound what they grant: no brackets or question marks in their patterns, and either
      anchored patterns only or no brackets in what is requested. */
  lemma {:induction false} RoleBoundsItsGrants(cls: ClassOf, role: RolePolicy, requested: seq<string>)
    requires forall p :: p in role.mayExercise ==> NoBracket(p) && '?' !in p
    requires (forall p :: p in role.mayExercise ==> Anchored(p)) || forall s :: s in requested ==> NoBracket(s)
    ensures forall s :: s in IntersectExercise(cls, role, requested) ==> BoundedByRole(cls, role, s)
  {
    forall s | s in IntersectExercise(cls, role, requested) ensures BoundedByRole(cls, role, s) {
      var p :| p in role.mayExercise && FnMatch(cls, s, p);
      assert Contains(p, s);
    }
  }

  /** A scope granted under a role admits only what the role may exercise. */
  lemma {:induction false} GrantedScopeStaysInRole(cls: ClassOf, role: RolePolicy, granted: seq<string>, scope: string)
    requires forall s :: s in granted ==> BoundedByRole(cls, role, s)
    requires MatchesAny(cls, scope, granted)
    ensures MatchesAny(cls, scope, role.mayExercise)
  {
    var s :| s in granted && FnMatch(cls, scope, s);
    var p :| p in role.mayExercise && FnMatch(cls, s, p) && Contains(p, s);
    if Plain(s) {
      PlainMatchesItselfOnly(cls, s, scope);
    } else if NoBracket(s) {
      AttenuatesIffNoQuestionMark(cls, p);
    } else {
      AnchoredBounds(cls, p, s, scope);
    }
    assert FnMatch(cls, scope, p);
  }

  /** Whatever bracket-free scopes are requested, what the grant admits the role admits. */
  ghost predicate RoleBoundsGrants(cls: ClassOf, role: RolePolicy) {
    forall requested, scope :: GrantStaysInRole(cls, role, requested, scope)
  }

  ghost predicate GrantStaysInRole(cls: ClassOf, role: RolePolicy, requested: seq<string>, scope: string) {
    (forall s :: s in requested ==> NoBracket(s)) && MatchesAny(cls, scope, IntersectExercise(cls, role, requested)) ==>
      MatchesAny(cls, scope, role.mayExercise)
  }

  /** A role of bracket-free patterns bounds what it grants exactly when it admits what its patterns
      admit with question marks widened to stars. */
  lemma {:induction false} RoleBoundsGrantsIff(cls: ClassOf, role: RolePolicy)
    requires forall p :: p in role.mayExercise ==> NoBracket(p)
    ensures RoleBoundsGrants(cls, role) <==> AdmitWidened(cls, role.mayExercise)
  {
    AttenuateTogetherIff(cls, role.mayExercise);
    if AttenuateTogether(cls, role.mayExercise) {
      forall requested, scope ensures GrantStaysInRole(cls, role, requested, scope) {
      }
    }
    if RoleBoundsGrants(cls, role) {
      forall s, x | NoBracket(s) && MatchesAny(cls, s, role.mayExercise) && FnMatch(cls, x, s)
        ensures MatchesAny(cls, x, role.mayExercise)
      {
        assert GrantStaysInRole(cls, role, [s], x);
        assert s in IntersectExercise(cls, role, [s]);
      }
    }
  }

  /** End to end: whatever action passes `Enforcer.check` under a capability from `issue_capability`
      is an action of the named subject on the named audience within the task and the lifetime of
      the token, a delegation only if permitted, and, if the role bounds the scopes it grants, inside
      the role's own `may_exercise`. */
  lemma {:induction false} CapabilityBoundsActions(
    e: Enforcer, pa: Authority, roles: map<string, RolePolicy>, roleName: string,
    capId: Bytes, nonce: Bytes, subject: Bytes, audience: Bytes, task: Bytes,
    requested: seq<string>, override: Option<Constraints>, now: real,
    cap: SignedCapability, request: ActionRequest, ts: real)
    requires IssueCapability(pa, e.cls, roles, roleName, capId, nonce, subject, audience, task,
                             requested, override, now)
             == Success(cap)
    requires e.Check(cap, request, ts) == None
    ensures request.subject == subject && request.audience == audience && request.task == task
    ensures now - 60.0 <= ts < now + 600.0
    ensures request.isDelegation ==>
              (if override.Some? then override.value else roles[roleName].constraints).delegationPermitted
    ensures MatchesAny(e.cls, request.scope, IntersectExercise(e.cls, roles[roleName], requested))
    ensures (forall s :: s in IntersectExercise(e.cls, roles[roleName], requested) ==>
                           BoundedByRole(e.cls, roles[roleName], s))
            ==> MatchesAny(e.cls, request.scope, roles[roleName].mayExercise)
  {
    var granted := IntersectExercise(e.cls, roles[roleName], requested);
    if forall s :: s in granted ==> BoundedByRole(e.cls, roles[roleName], s) {
      GrantedScopeStaysInRole(e.cls, roles[roleName], granted, request.scope);
    }
  }

  /** What the constraints of a capability ask of a request; an absent constraint asks nothing. */
  predicate MeetsConstraints(c: Constraints, request: ActionRequest) {
    && (request.outputSize.Some? && c.maxOutputSize.Some? ==> request.outputSize.value <= c.maxOutputSize.value)
    && (request.externalTool.Some? && |c.allowedExternalTools| > 0 ==>
          request.externalTool.value in c.allowedExternalTools)
    && (request.dataLabel.Some? && |c.permittedDataLabels| > 0 ==> request.dataLabel.value in c.permittedDataLabels)
    && (request.isDelegation ==> c.delegationPermitted)
  }

  /** The check allows an action if and only if a trusted key has signed the capability, the time lies in
      its window with a minute of tolerance at the start, it names this subject, audience and task, one of
      its scopes matches as a pattern, and the constraints are met; and which exception refuses it. */
  lemma {:induction false} CheckExactly(e: Enforcer, signed: SignedCapability, request: ActionRequest, ts: real)
    ensures var cap, fault := signed.capability, e.Check(signed, request, ts);
            var trusted := exists pk :: pk in e.trusted && e.verify(e.digest(cap), signed.signature, pk);
            var inTime := cap.notBefore - 60.0 <= ts < cap.expiry;
            var named := cap.subject == request.subject && cap.audience == request.audience;
            var covered := && cap.task == request.task
                           && (exists p :: p in cap.scopes && FnMatch(e.cls, request.scope, p))
                           && MeetsConstraints(cap.constraints, request);
            && (fault == None <==> trusted && inTime && named && covered)
            && (fault == Some(SignatureVerificationError) <==> !trusted)
            && (fault == Some(CapabilityExpiredError) <==> trusted && !inTime)
            && (fault == Some(CapabilityAudienceError) <==> trusted && inTime && !named)
            && (fault == Some(CapabilityScopeError) <==> trusted && inTime && named && !covered)
  {
  }

  /** What is issued: a token for the subject, audience and task that names exactly the requested scopes
      within the role, for ten minutes from now, signed by the authority; nothing for an unknown role or
      without a scope within the role. */
  lemma {:induction false} IssuedToken(
    pa: Authority, cls: ClassOf, roles: map<string, RolePolicy>, roleName: string, capId: Bytes, nonce: Bytes,
    subject: Bytes, audience: Bytes, task: Bytes, requested: seq<string>, override: Option<Constraints>, now: real)
    ensures var r := IssueCapability(pa, cls, roles, roleName, capId, nonce, subject, audience, task,
                                     requested, override, now);
            && (r == Failure(UnknownRole) <==> roleName !in roles)
            && (r == Failure(NoIntersectingScope) <==>
                  roleName in roles && forall s :: s in requested ==> !MatchesAny(cls, s, roles[roleName].mayExercise))
            && (r.Success? ==>
                  && r.value.issuerKey == pa.publicKey
                  && r.value.signature == pa.sign(pa.digest(r.value.capability))
                  && var cap := r.value.capability;
                     && cap.capId == capId && cap.issuer == pa.issuer && cap.nonce == nonce
                     && cap.subject == subject && cap.audience == audience && cap.task == task
                     && cap.notBefore == now && cap.expiry == now + 600.0
                     && (cap.constraints == match override case Some(c) => c case None => roles[roleName].constraints)
                     && forall s :: s in cap.scopes <==>
                                      s in requested && MatchesAny(cls, s, roles[roleName].mayExercise))
  {
    if roleName in roles {
      var granted := IntersectExercise(cls, roles[roleName], requested);
      if s :| s in requested && MatchesAny(cls, s, roles[roleName].mayExercise) {
        assert s in granted;
      }
      assert granted != [] ==> granted[0] in granted;
    }
  }

  lemma {:induction false} IntersectCons(cls: ClassOf, role: RolePolicy, s: string, rest: seq<string>)
    ensures IntersectExercise(cls, role, [s] + rest)
            == (if MatchesAny(cls, s, role.mayExercise) then [s] else []) + IntersectExercise(cls, role, rest)
  {
    assert ([s] + rest)[1..] == rest;
  }

  /** The granted scopes keep the order and the repetitions of the request. */
  lemma {:induction false} IntersectKeepsOrder(cls: ClassOf, role: RolePolicy, a: seq<string>, b: seq<string>)
    ensures IntersectExercise(cls, role, a + b) == IntersectExercise(cls, role, a) + IntersectExercise(cls, role, b)
    decreases |a|
  {
    if a == [] {
      assert a + b == b;
    } else {
      var first := if MatchesAny(cls, a[0], role.mayExercise) then [a[0]] else [];
      IntersectKeepsOrder(cls, role, a[1..], b);
      assert a == [a[0]] + a[1..] && a + b == [a[0]] + (a[1..] + b);
      IntersectCons(cls, role, a[0], a[1..]);
      IntersectCons(cls, role, a[0], a[1..] + b);
      AppendAssoc(first, IntersectExercise(cls, role, a[1..]), IntersectExercise(cls, role, b));
    }
  }

  /** A trusted authority's capability admits exactly the actions of its subject on its audience in its
      task and lifetime whose scope is matched, as a pattern, by a requested scope within the role, and
      that meet the constraints. */
  lemma {:induction false} IssuedAdmitsExactly(
    e: Enforcer, pa: Authority, roles: map<string, RolePolicy>, roleName: string,
    capId: Bytes, nonce: Bytes, subject: Bytes, audience: Bytes, task: Bytes, requested: seq<string>,
    override: Option<Constraints>, now: real, request: ActionRequest, ts: real)
    requires pa.digest == e.digest && pa.publicKey in e.trusted && forall m :: e.verify(m, pa.sign(m), pa.publicKey)
    requires roleName in roles
    ensures var r := IssueCapability(pa, e.cls, roles, roleName, capId, nonce, subject, audience, task,
                                     requested, override, now);
            var constraints := match override case Some(c) => c case None => roles[roleName].constraints;
            r.Success? && e.Check(r.value, request, ts) == None <==>
              && request.subject == subject && request.audience == audience && request.task == task
              && now - 60.0 <= ts < now + 600.0 && MeetsConstraints(constraints, request)
              && exists p :: GrantedPattern(e.cls, roles[roleName], requested, p, request.scope)
  {
    IssuedToken(pa, e.cls, roles, roleName, capId, nonce, subject, audience, task, requested, override, now);
    var r := IssueCapability(pa, e.cls, roles, roleName, capId, nonce, subject, audience, task,
                             requested, override, now);
    if r.Success? {
      CheckExactly(e, r.value, request, ts);
      assert e.verify(e.digest(r.value.capability), r.value.signature, pa.publicKey);
      if p :| p in r.value.capability.scopes && FnMatch(e.cls, request.scope, p) {
        assert GrantedPattern(e.cls, roles[roleName], requested, p, request.scope);
      }
    }
  }

  /** The requested scope `p` lies within the role and matches `scope`. */
  predicate GrantedPattern(cls: ClassOf, role: RolePolicy, requested: seq<string>, p: string, scope: string) {
    p in requested && MatchesAny(cls, p, role.mayExercise) && FnMatch(cls, scope, p)
  }

  /** Issued capabilities are usable: whatever a requested scope within the role matches, delegations
      included where they are permitted, passes the check for the whole lifetime of the token. */
  lemma {:induction false} IssuedScopesAreUsable(
    e: Enforcer, pa: Authority, roles: map<string, RolePolicy>, roleName: string,
    capId: Bytes, nonce: Bytes, subject: Bytes, audience: Bytes, task: Bytes,
    requested: seq<string>, now: real, p: string, scope: string, isDelegation: bool, ts: real)
    requires roleName in roles && GrantedPattern(e.cls, roles[roleName], requested, p, scope)
    requires isDelegation ==> roles[roleName].constraints.delegationPermitted
    requires pa.digest == e.digest && pa.publicKey in e.trusted
    requires forall m :: e.verify(m, pa.sign(m), pa.publicKey)
    requires now - 60.0 <= ts < now + 600.0
    ensures var r := IssueCapability(pa, e.cls, roles, roleName, capId, nonce, subject, audience, task,
                                     requested, None, now);
            var request := ActionRequest(subject, audience, task, scope, None, None, None, isDelegation);
            r.Success? && e.Check(r.value, request, ts) == None
  {
    IssuedAdmitsExactly(e, pa, roles, roleName, capId, nonce, subject, audience, task, requested, None, now,
                        ActionRequest(subject, audience, task, scope, None, None, None, isDelegation), ts);
  }

  /** A bracket-free scope is usable literally. */
  lemma {:induction false} GrantedLiterally(cls: ClassOf, role: RolePolicy, requested: seq<string>, scope: string)
    requires scope in requested && NoBracket(scope) && MatchesAny(cls, scope, role.mayExercise)
    ensures GrantedPattern(cls, role, requested, scope, scope)
  {
    MatchesItself(cls, scope);
  }
}
