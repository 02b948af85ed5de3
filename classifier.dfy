/**
 * The per-bucket exposure classifier of `lambda_handler`: the Public Access
 * Block check, the ACL group-grant check and the bucket-policy check, run in
 * that order, each adding at most one reason and setting the public flag.
 *
 * `Classify` states the outcome check by check; `AssessBucket` is the
 * handler's loop body, with its flag, its reason list and its two scanning
 * loops that stop at the first match, proved to produce `Classify`'s verdict.
 * A reason is kept as a `Reason` value; `ReasonText` gives the exact message
 * the handler appends for it, and distinct reasons have distinct messages.
 */
module Classifier {
  import opened Inputs
  import Text

  const AllUsers := "AllUsers"
  const AuthenticatedUsers := "AuthenticatedUsers"
  /** The two well-known group URIs, written as their shared prefix and their last segment. */
  const GroupsPrefix := "http://acs.amazonaws.com/groups/global"
  const AllUsersUri := GroupsPrefix + "/" + AllUsers
  const AuthenticatedUsersUri := GroupsPrefix + "/" + AuthenticatedUsers
  const GetObject := "s3:GetObject"

  /** One entry of a bucket's reason list, one kind per check (the ACL one
      carries the group name taken from the grantee URI). */
  datatype Reason =
    | PabNotFullyEnabled
    | PabMissing
    | AclGroupGrant(group: string)
    | PolicyPublicRead

  const PabName := "Public Access Block (PAB)"

  /** The message text the handler appends for a reason. */
  function ReasonText(r: Reason): (text: string)
  {
    match r
    case PabNotFullyEnabled => PabName + " not fully enabled."
    case PabMissing => "No " + PabName + " configuration found."
    case AclGroupGrant(group) => "ACL grants " + group + " access."
    case PolicyPublicRead => "Bucket policy grants public read access."
  }

  /** The classifier's answer for one bucket: skipped because the PAB lookup
      failed, the whole run aborted by an exception that is not a client
      error, or the public flag with the reasons gathered. */
  datatype Verdict =
    | Skipped
    | Aborted
    | Assessed(isPublic: bool, reasons: seq<Reason>)

  // ---------------------------------------------------------------------------
  // Check 1: Public Access Block

  predicate FullyEnabled(c: PabConfig)
  {
    c.blockPublicAcls && c.ignorePublicAcls && c.blockPublicPolicy && c.restrictPublicBuckets
  }

  /** The PAB check finds exposure: no configuration, or one with a flag off. */
  predicate PabTriggered(p: PabLookup)
  {
    p.NoPabConfiguration? || (p.PabFound? && !FullyEnabled(p.config))
  }

  function PabReasons(p: PabLookup): (rs: seq<Reason>)
  {
    match p
    case PabFound(c) => if FullyEnabled(c) then [] else [PabNotFullyEnabled]
    case NoPabConfiguration => [PabMissing]
    case PabLookupFailed => []
    case PabLookupRaised => []
  }

  // ---------------------------------------------------------------------------
  // Check 2: ACL grants

  /** `grant.get('Grantee', {})`. */
  function GranteeOf(g: Grant): (e: Grantee)
  {
    match g.grantee
    case Some(e) => e
    case None => Grantee(None, None)
  }

  /** A grant to the AllUsers or AuthenticatedUsers group. */
  predicate IsPublicGrant(g: Grant)
  {
    var e := GranteeOf(g);
    e.kind == Some("Group") && e.uri.Some? &&
    (e.uri.value == AllUsersUri || e.uri.value == AuthenticatedUsersUri)
  }

  /** The reason for a public grant: the last path segment of its URI. */
  function AclReasonFor(g: Grant): (reason: Reason)
    requires IsPublicGrant(g)
  {
    AclGroupGrant(Text.LastSegment(GranteeOf(g).uri.value))
  }

  /** The reasons the ACL check adds for a grant list: the first public grant's, if any. */
  function AclScan(grants: seq<Grant>): (rs: seq<Reason>)
  {
    if grants == [] then []
    else if IsPublicGrant(grants[0]) then [AclReasonFor(grants[0])]
    else AclScan(grants[1..])
  }

  predicate AclTriggered(acl: AclLookup)
  {
    acl.Grants? && exists i :: 0 <= i < |acl.grants| && IsPublicGrant(acl.grants[i])
  }

  function AclReasons(acl: AclLookup): (rs: seq<Reason>)
  {
    match acl
    case Grants(grants) => AclScan(grants)
    case AclLookupFailed => []
    case AclLookupRaised => []
  }

  // ---------------------------------------------------------------------------
  // Check 3: bucket policy

  /** `name in statement.get('Action', [])`: list membership for a list, a
      substring test for a string, false when the key is absent. A value `in`
      cannot search raises instead (see `StatementStep`). */
  predicate ActionIncludes(a: Option<Action>, name: string)
  {
    match a
    case None => false
    case Some(ActionList(names)) => name in names
    case Some(ActionString(text)) => Text.Contains(text, name)
    case Some(ActionNotIterable) => false
  }

  /** Effect "Allow", Principal exactly the string "*", and s3:GetObject among the actions. */
  predicate GrantsPublicRead(s: Statement)
  {
    s.effect == Some("Allow") &&
    s.principal == Some(PrincipalName("*")) &&
    ActionIncludes(s.action, GetObject)
  }

  /** What one visited value does to the statement loop. */
  datatype Step = Match | NoMatch | Raise

  /** The loop's condition on one value, evaluated left to right as `and`
      does: `.get` on a non-object raises at once; `in` on an Action it cannot
      search raises, but only once Effect and Principal have both matched. */
  function StatementStep(e: Entry): (step: Step)
  {
    match e
    case NotAnObject => Raise
    case Parsed(s) =>
      if s.effect != Some("Allow") || s.principal != Some(PrincipalName("*")) then NoMatch
      else if s.action == Some(ActionNotIterable) then Raise
      else if ActionIncludes(s.action, GetObject) then Match
      else NoMatch
  }

  /** The statement loop: the first value that does not fall through decides,
      and nothing after it is looked at. */
  function PolicyScan(es: seq<Entry>): (step: Step)
  {
    if es == [] then NoMatch
    else if StatementStep(es[0]) == NoMatch then PolicyScan(es[1..])
    else StatementStep(es[0])
  }

  predicate PolicyTriggered(p: PolicyLookup)
  {
    p.Statements? && PolicyScan(p.entries) == Match
  }

  /** The policy check raises an exception that is not a client error. */
  predicate PolicyRaises(p: PolicyLookup)
  {
    p.PolicyLookupRaised? || p.PolicyUnparsable? || (p.Statements? && PolicyScan(p.entries) == Raise)
  }

  function PolicyReasons(p: PolicyLookup): (rs: seq<Reason>)
  {
    if PolicyTriggered(p) then [PolicyPublicRead] else []
  }

  // ---------------------------------------------------------------------------
  // The three checks together

  /** The verdict for one bucket, check by check. The PAB lookup comes first:
      an exception that is not a client error aborts the run, any other client
      error skips the bucket before anything else is looked at. After it, an
      ACL or policy check that raises such an exception aborts the run. */
  function Classify(o: Observation): (v: Verdict)
  {
    if o.pab.PabLookupRaised? then Aborted
    else if o.pab.PabLookupFailed? then Skipped
    else if o.acl.AclLookupRaised? || PolicyRaises(o.policy) then Aborted
    else Assessed(
      PabTriggered(o.pab) || AclTriggered(o.acl) || PolicyTriggered(o.policy),
      PabReasons(o.pab) + AclReasons(o.acl) + PolicyReasons(o.policy))
  }

  /** The grant loop: scans the grants in order, and at the first public one
      sets the flag, appends its reason and stops. */
  method CheckAcl(grants: seq<Grant>, isPublic0: bool, reasons0: seq<Reason>)
    returns (isPublic: bool, reasons: seq<Reason>)
    ensures isPublic == (isPublic0 || exists i :: 0 <= i < |grants| && IsPublicGrant(grants[i]))
    ensures reasons == reasons0 + AclScan(grants)
  {
    isPublic, reasons := isPublic0, reasons0;
    var i := 0;
    while i < |grants|
      invariant 0 <= i <= |grants|
      invariant AclScan(grants) == AclScan(grants[i..])
      invariant forall k :: 0 <= k < i ==> !IsPublicGrant(grants[k])
      invariant isPublic == isPublic0 && reasons == reasons0
    {
      var grantee := GranteeOf(grants[i]);
      if grantee.kind == Some("Group") && grantee.uri.Some? &&
         (grantee.uri.value == AllUsersUri || grantee.uri.value == AuthenticatedUsersUri)
      {
        isPublic := true;
        reasons := reasons + [AclGroupGrant(Text.LastSegment(grantee.uri.value))];
        assert AclScan(grants[i..]) == [AclReasonFor(grants[i])];
        return;
      }
      assert grants[i..][1..] == grants[i + 1..];
      i := i + 1;
    }
    assert AclScan(grants) == [];
  }

  /** The statement loop: visits the values in order; at the first public-read
      statement it sets the flag, appends the reason and stops; a value on
      which the condition raises ends the check with `raised`. */
  method CheckPolicy(entries: seq<Entry>, isPublic0: bool, reasons0: seq<Reason>)
    returns (raised: bool, isPublic: bool, reasons: seq<Reason>)
    ensures raised <==> PolicyScan(entries) == Raise
    ensures !raised ==> isPublic == (isPublic0 || PolicyScan(entries) == Match)
    ensures !raised ==> reasons == reasons0 + (if PolicyScan(entries) == Match then [PolicyPublicRead] else [])
  {
    raised, isPublic, reasons := false, isPublic0, reasons0;
    var j := 0;
    while j < |entries|
      invariant 0 <= j <= |entries|
      invariant PolicyScan(entries) == PolicyScan(entries[j..])
      invariant isPublic == isPublic0 && reasons == reasons0
    {
      var e := entries[j];
      if e.NotAnObject? {
        raised := true;
        return;
      }
      var s := e.statement;
      if s.effect == Some("Allow") && s.principal == Some(PrincipalName("*")) {
        if s.action == Some(ActionNotIterable) {
          raised := true;
          return;
        }
        if ActionIncludes(s.action, GetObject) {
          isPublic := true;
          reasons := reasons + [PolicyPublicRead];
          return;
        }
      }
      assert entries[j..][1..] == entries[j + 1..];
      j := j + 1;
    }
  }

  /** The body of the handler's bucket loop up to the findings append. */
  method AssessBucket(o: Observation) returns (v: Verdict)
    ensures v == Classify(o)
  {
    var isPublic := false;
    var reasons: seq<Reason> := [];

    match o.pab {
      case PabFound(c) =>
        if !c.blockPublicAcls || !c.ignorePublicAcls || !c.blockPublicPolicy || !c.restrictPublicBuckets {
          isPublic := true;
          reasons := reasons + [PabNotFullyEnabled];
        }
      case NoPabConfiguration =>
        isPublic := true;
        reasons := reasons + [PabMissing];
      case PabLookupFailed =>
        return Skipped;
      case PabLookupRaised =>
        return Aborted;
    }
    assert isPublic == PabTriggered(o.pab) && reasons == PabReasons(o.pab);

    match o.acl {
      case Grants(grants) =>
        isPublic, reasons := CheckAcl(grants, isPublic, reasons);
      case AclLookupFailed =>
      case AclLookupRaised =>
        return Aborted;
    }
    assert isPublic == (PabTriggered(o.pab) || AclTriggered(o.acl));
    assert reasons == PabReasons(o.pab) + AclReasons(o.acl);

    match o.policy {
      case Statements(entries) =>
        var raised;
        raised, isPublic, reasons := CheckPolicy(entries, isPublic, reasons);
        if raised {
          return Aborted;
        }
      case NoBucketPolicy =>
      case PolicyLookupFailed =>
      case PolicyLookupRaised =>
        return Aborted;
      case PolicyUnparsable =>
        return Aborted;
    }
    v := Assessed(isPublic, reasons);
  }

  // ---------------------------------------------------------------------------
  // The wording of the reasons

  /** Different reasons never share a message, so the texts identify the reasons. */
  lemma ReasonTextInjective(r1: Reason, r2: Reason)
    requires ReasonText(r1) == ReasonText(r2)
    ensures r1 == r2
  {
    var t := ReasonText(r1);
    if r1.AclGroupGrant? && r2.AclGroupGrant? {
      assert r1.group == t[11..|t| - 8] == r2.group;
    } else {
      assert ReasonText(r1)[0] == ReasonText(r2)[0];
    }
  }

  /** The group name of a public grant's reason is AllUsers or AuthenticatedUsers,
      according to its URI. */
  lemma AclGroupNamed(g: Grant)
    requires IsPublicGrant(g)
    ensures AclReasonFor(g) ==
      AclGroupGrant(if GranteeOf(g).uri.value == AllUsersUri then AllUsers else AuthenticatedUsers)
  {
    if GranteeOf(g).uri.value == AllUsersUri {
      Text.LastSegmentAfterSlash(GroupsPrefix, AllUsers);
    } else {
      Text.LastSegmentAfterSlash(GroupsPrefix, AuthenticatedUsers);
    }
  }

  // ---------------------------------------------------------------------------
  // Properties of the classifier

  /** The ACL check reports the first public grant in list order, or nothing
      when there is none; it never reports two. */
  lemma {:induction false} AclScanFirstMatch(grants: seq<Grant>)
    ensures |AclScan(grants)| <= 1
    ensures AclScan(grants) == [] <==> forall i :: 0 <= i < |grants| ==> !IsPublicGrant(grants[i])
    ensures AclScan(grants) != [] ==>
      exists k :: 0 <= k < |grants| && IsPublicGrant(grants[k]) &&
        (forall i :: 0 <= i < k ==> !IsPublicGrant(grants[i])) &&
        AclScan(grants) == [AclReasonFor(grants[k])]
  {
    if grants != [] && !IsPublicGrant(grants[0]) {
      AclScanFirstMatch(grants[1..]);
      if AclScan(grants) != [] {
        var k :| 0 <= k < |grants[1..]| && IsPublicGrant(grants[1..][k]) &&
          (forall i :: 0 <= i < k ==> !IsPublicGrant(grants[1..][i])) &&
          AclScan(grants[1..]) == [AclReasonFor(grants[1..][k])];
        assert IsPublicGrant(grants[k + 1]);
        assert forall i :: 0 <= i < k + 1 ==> !IsPublicGrant(grants[i]) by {
          forall i | 0 <= i < k + 1 ensures !IsPublicGrant(grants[i]) {
            if i > 0 { assert grants[i] == grants[1..][i - 1]; }
          }
        }
      } else {
        forall i | 0 <= i < |grants| ensures !IsPublicGrant(grants[i]) {
          if i > 0 { assert grants[i] == grants[1..][i - 1]; }
        }
      }
    } else if grants != [] {
      assert !(forall i :: 0 <= i < |grants| ==> !IsPublicGrant(grants[i]));
    }
  }

  /** Whatever the ACL check reports names AllUsers or AuthenticatedUsers. */
  lemma {:induction false} AclScanGroups(grants: seq<Grant>)
    ensures forall r :: r in AclScan(grants) ==>
      r == AclGroupGrant(AllUsers) || r == AclGroupGrant(AuthenticatedUsers)
  {
    if grants != [] {
      if IsPublicGrant(grants[0]) {
        AclGroupNamed(grants[0]);
      } else {
        AclScanGroups(grants[1..]);
      }
    }
  }

  /** Which check a reason comes from: 0 for PAB, 1 for ACL, 2 for the policy. */
  function CheckOf(r: Reason): (check: nat)
  {
    match r
    case PabNotFullyEnabled => 0
    case PabMissing => 0
    case AclGroupGrant(_) => 1
    case PolicyPublicRead => 2
  }

  /** The three contributions, each of at most one reason from its own check. */
  lemma ContributionsShaped(o: Observation)
    ensures |PabReasons(o.pab)| <= 1 && |AclReasons(o.acl)| <= 1 && |PolicyReasons(o.policy)| <= 1
    ensures forall r :: r in PabReasons(o.pab) ==> CheckOf(r) == 0
    ensures forall r :: r in AclReasons(o.acl) ==>
      r == AclGroupGrant(AllUsers) || r == AclGroupGrant(AuthenticatedUsers)
    ensures forall r :: r in PolicyReasons(o.policy) ==> CheckOf(r) == 2
  {
    if o.acl.Grants? {
      AclScanFirstMatch(o.acl.grants);
      AclScanGroups(o.acl.grants);
    }
  }

  /** A bucket is flagged public exactly when it has at least one reason, and
      exactly when at least one of the three checks found exposure. */
  lemma PublicIffReasons(o: Observation)
    requires Classify(o).Assessed?
    ensures Classify(o).isPublic <==> Classify(o).reasons != []
    ensures Classify(o).isPublic <==>
      PabTriggered(o.pab) || AclTriggered(o.acl) || PolicyTriggered(o.policy)
  {
    if o.acl.Grants? {
      AclScanFirstMatch(o.acl.grants);
    }
  }

  /** Reasons come in check order PAB, ACL, policy: at most three, no two alike. */
  lemma ReasonsInCheckOrder(o: Observation)
    requires Classify(o).Assessed?
    ensures |Classify(o).reasons| <= 3
    ensures forall i, j :: 0 <= i < j < |Classify(o).reasons| ==>
      CheckOf(Classify(o).reasons[i]) < CheckOf(Classify(o).reasons[j])
    ensures forall i, j :: 0 <= i < j < |Classify(o).reasons| ==>
      Classify(o).reasons[i] != Classify(o).reasons[j]
  {
    ContributionsShaped(o);
    var a, b, c := PabReasons(o.pab), AclReasons(o.acl), PolicyReasons(o.policy);
    var rs := Classify(o).reasons;
    assert rs == a + b + c;
    forall k | 0 <= k < |rs|
      ensures CheckOf(rs[k]) == if k < |a| then 0 else if k < |a| + |b| then 1 else 2
    {
      if k < |a| {
        assert rs[k] == a[k] && a[k] in a;
      } else if k < |a| + |b| {
        assert rs[k] == b[k - |a|] && b[k - |a|] in b;
      } else {
        assert rs[k] == c[k - |a| - |b|] && c[k - |a| - |b|] in c;
      }
    }
  }

  /** With a PAB configuration present, one false flag yields the not-fully-enabled
      reason exactly once and first; all four true yields no PAB reason at all. */
  lemma PabConfigReason(o: Observation, c: PabConfig)
    requires o.pab == PabFound(c) && Classify(o) != Aborted
    ensures Classify(o).Assessed? && PabMissing !in Classify(o).reasons
    ensures !FullyEnabled(c) ==>
      Classify(o).isPublic && Classify(o).reasons[0] == PabNotFullyEnabled &&
      multiset(Classify(o).reasons)[PabNotFullyEnabled] == 1
    ensures FullyEnabled(c) ==> PabNotFullyEnabled !in Classify(o).reasons
  {
    ContributionsShaped(o);
    var rest := AclReasons(o.acl) + PolicyReasons(o.policy);
    assert PabMissing !in rest && PabNotFullyEnabled !in rest;
    var rs := Classify(o).reasons;
    assert rs == PabReasons(o.pab) + rest;
    if !FullyEnabled(c) {
      assert rs == [PabNotFullyEnabled] + rest;
      assert multiset(rest)[PabNotFullyEnabled] == 0;
      assert multiset(rs) == multiset([PabNotFullyEnabled]) + multiset(rest);
    } else {
      assert rs == rest;
    }
  }

  /** A missing PAB configuration yields its own reason, once and first, whose
      wording differs from the not-fully-enabled one. */
  lemma NoPabReason(o: Observation)
    requires o.pab.NoPabConfiguration? && Classify(o) != Aborted
    ensures Classify(o).Assessed? && Classify(o).isPublic
    ensures Classify(o).reasons[0] == PabMissing && PabNotFullyEnabled !in Classify(o).reasons
    ensures multiset(Classify(o).reasons)[PabMissing] == 1
    ensures ReasonText(PabMissing) != ReasonText(PabNotFullyEnabled)
  {
    ContributionsShaped(o);
    var rest := AclReasons(o.acl) + PolicyReasons(o.policy);
    assert PabMissing !in rest && PabNotFullyEnabled !in rest;
    assert Classify(o).reasons == [PabMissing] + rest;
    assert multiset(Classify(o).reasons) == multiset([PabMissing]) + multiset(rest);
    assert ReasonText(PabMissing)[0] != ReasonText(PabNotFullyEnabled)[0];
  }

  /** Any other PAB lookup error skips the bucket before the ACL and policy
      lookups are consulted, whatever they would have answered. */
  lemma PabErrorSkips(o: Observation, acl: AclLookup, policy: PolicyLookup)
    requires o.pab.PabLookupFailed?
    ensures Classify(o) == Skipped
    ensures Classify(o.(acl := acl, policy := policy)) == Skipped
  {
  }

  /** An exception that is not a client error aborts the run: from the PAB
      lookup whatever the other lookups answer, and from the ACL or policy
      lookup, or from a policy that does not parse, unless a failed PAB lookup
      has already skipped the bucket. */
  lemma LookupRaisedAborts(o: Observation, acl: AclLookup, policy: PolicyLookup)
    ensures o.pab.PabLookupRaised? ==> Classify(o.(acl := acl, policy := policy)) == Aborted
    ensures var raised := o.acl.AclLookupRaised? || o.policy.PolicyLookupRaised? || o.policy.PolicyUnparsable?;
      !o.pab.PabLookupFailed? && raised ==> Classify(o) == Aborted
  {
  }

  /** The grant loop breaks at its first public grant: the grants after it,
      whatever they hold, are never looked at. */
  lemma AclScanStopsAtFirst(g: Grant, tail: seq<Grant>)
    requires IsPublicGrant(g)
    ensures AclScan([g] + tail) == AclScan([g]) == [AclReasonFor(g)]
  {
  }

  /** The ACL check's one reason comes from the first grant, in list order, to
      AllUsers or AuthenticatedUsers and names that group; with no such grant,
      or when the ACL lookup fails, it contributes nothing. */
  lemma AclReason(o: Observation)
    requires Classify(o).Assessed?
    ensures !AclTriggered(o.acl) ==> forall r :: r in Classify(o).reasons ==> !r.AclGroupGrant?
    ensures forall k ::
      (o.acl.Grants? && 0 <= k < |o.acl.grants| && IsPublicGrant(o.acl.grants[k]) &&
       (forall i :: 0 <= i < k ==> !IsPublicGrant(o.acl.grants[i]))) ==>
        var named := AclGroupGrant(
          if GranteeOf(o.acl.grants[k]).uri.value == AllUsersUri then AllUsers else AuthenticatedUsers);
        named in Classify(o).reasons &&
        forall r :: r in Classify(o).reasons && r.AclGroupGrant? ==> r == named
  {
    ContributionsShaped(o);
    var a, b, p := PabReasons(o.pab), AclReasons(o.acl), PolicyReasons(o.policy);
    assert Classify(o).reasons == a + b + p;
    assert forall r: Reason :: r in a + p ==> !r.AclGroupGrant?;
    if o.acl.Grants? {
      var gs := o.acl.grants;
      AclScanFirstMatch(gs);
      if !AclTriggered(o.acl) {
        assert b == [];
      }
      forall k | 0 <= k < |gs| && IsPublicGrant(gs[k]) && (forall i :: 0 <= i < k ==> !IsPublicGrant(gs[i]))
        ensures b == [AclGroupGrant(if GranteeOf(gs[k]).uri.value == AllUsersUri then AllUsers else AuthenticatedUsers)]
      {
        var k' :| 0 <= k' < |gs| && IsPublicGrant(gs[k']) &&
          (forall i :: 0 <= i < k' ==> !IsPublicGrant(gs[i])) &&
          AclScan(gs) == [AclReasonFor(gs[k'])];
        assert k == k';
        AclGroupNamed(gs[k]);
      }
    }
  }

  /** A visited value matches exactly when it is a statement granting public read. */
  lemma StatementStepMatches(e: Entry)
    ensures StatementStep(e) == Match <==> e.Parsed? && GrantsPublicRead(e.statement)
  {
  }

  /** The statement loop's result is decided by the first value that does not
      fall through; when every value falls through, nothing is found. */
  lemma {:induction false} PolicyScanFirstDecisive(es: seq<Entry>)
    ensures PolicyScan(es) == NoMatch <==> forall i :: 0 <= i < |es| ==> StatementStep(es[i]) == NoMatch
    ensures PolicyScan(es) != NoMatch ==>
      exists k :: 0 <= k < |es| && StatementStep(es[k]) == PolicyScan(es) &&
        forall i :: 0 <= i < k ==> StatementStep(es[i]) == NoMatch
  {
    if es != [] && StatementStep(es[0]) == NoMatch {
      PolicyScanFirstDecisive(es[1..]);
      if PolicyScan(es) != NoMatch {
        var k :| 0 <= k < |es[1..]| && StatementStep(es[1..][k]) == PolicyScan(es[1..]) &&
          forall i :: 0 <= i < k ==> StatementStep(es[1..][i]) == NoMatch;
        assert StatementStep(es[k + 1]) == PolicyScan(es);
        forall i | 0 <= i < k + 1 ensures StatementStep(es[i]) == NoMatch {
          if i > 0 { assert es[i] == es[1..][i - 1]; }
        }
      } else {
        forall i | 0 <= i < |es| ensures StatementStep(es[i]) == NoMatch {
          if i > 0 { assert es[i] == es[1..][i - 1]; }
        }
      }
    } else if es != [] {
      assert StatementStep(es[0]) == PolicyScan(es);
    }
  }

  /** Values after the deciding one are never looked at: scanning `a + b` is
      scanning `a`, unless everything in `a` falls through. */
  lemma {:induction false} PolicyScanAppend(a: seq<Entry>, b: seq<Entry>)
    ensures PolicyScan(a + b) == if PolicyScan(a) == NoMatch then PolicyScan(b) else PolicyScan(a)
  {
    if a == [] {
      assert a + b == b;
    } else {
      assert (a + b)[0] == a[0];
      assert (a + b)[1..] == a[1..] + b;
      PolicyScanAppend(a[1..], b);
    }
  }

  /** The policy reason appears, once, exactly when some statement allows
      s3:GetObject to the bare wildcard principal; a missing policy or a failed
      lookup contributes nothing. */
  lemma PolicyReason(o: Observation)
    requires Classify(o).Assessed?
    ensures (PolicyPublicRead in Classify(o).reasons) <==>
      (o.policy.Statements? &&
       exists i :: 0 <= i < |o.policy.entries| && o.policy.entries[i].Parsed? &&
         GrantsPublicRead(o.policy.entries[i].statement))
    ensures multiset(Classify(o).reasons)[PolicyPublicRead] <= 1
  {
    ContributionsShaped(o);
    var front, p := PabReasons(o.pab) + AclReasons(o.acl), PolicyReasons(o.policy);
    assert Classify(o).reasons == front + p;
    assert PolicyPublicRead !in front;
    assert multiset(Classify(o).reasons) == multiset(front) + multiset(p);
    if o.policy.Statements? {
      var es := o.policy.entries;
      PolicyScanFirstDecisive(es);
      if PolicyScan(es) == Match {
        var k :| 0 <= k < |es| && StatementStep(es[k]) == Match &&
          forall i :: 0 <= i < k ==> StatementStep(es[i]) == NoMatch;
        StatementStepMatches(es[k]);
      }
      if exists i :: 0 <= i < |es| && es[i].Parsed? && GrantsPublicRead(es[i].statement) {
        var i :| 0 <= i < |es| && es[i].Parsed? && GrantsPublicRead(es[i].statement);
        StatementStepMatches(es[i]);
      }
    }
  }

  /** A policy whose statement objects each have an Effect other than exactly
      "Allow", or a principal other than the bare "*", contributes no reason. */
  lemma NonPublicStatementsContributeNothing(o: Observation)
    requires Classify(o).Assessed? && o.policy.Statements?
    requires forall i :: 0 <= i < |o.policy.entries| && o.policy.entries[i].Parsed? ==>
      o.policy.entries[i].statement.effect != Some("Allow") ||
      o.policy.entries[i].statement.principal != Some(PrincipalName("*"))
    ensures PolicyPublicRead !in Classify(o).reasons
  {
    PolicyReason(o);
  }

  /** `Principal == '*'` is string equality: {"AWS": ["*"]} or any other
      principal is not the wildcard. `in` on an Action string is a substring
      test, on a list it is membership, and a missing Action never matches. */
  lemma PrincipalAndActionMatching(t: string, ns: seq<string>, p: Principal)
    ensures !GrantsPublicRead(Statement(Some("Allow"), Some(PrincipalMap(map["AWS" := ["*"]])),
                                        Some(ActionList([GetObject]))))
    ensures p != PrincipalName("*") ==> forall a :: !GrantsPublicRead(Statement(Some("Allow"), Some(p), a))
    ensures GrantsPublicRead(Statement(Some("Allow"), Some(PrincipalName("*")), Some(ActionString(t)))) <==>
      exists i :: Text.OccursAt(t, GetObject, i)
    ensures GrantsPublicRead(Statement(Some("Allow"), Some(PrincipalName("*")), Some(ActionList(ns)))) <==>
      GetObject in ns
    ensures !GrantsPublicRead(Statement(Some("Allow"), Some(PrincipalName("*")), None))
  {
    Text.ContainsAt(t, GetObject);
  }

  /** The condition short-circuits: a non-object raises at once, an Action `in`
      cannot search raises only after Effect and Principal have matched. */
  lemma StatementShortCircuit(effect: string, p: Principal)
    ensures StatementStep(NotAnObject) == Raise
    ensures StatementStep(Parsed(Statement(Some(effect), Some(PrincipalName("*")), Some(ActionNotIterable)))) ==
      if effect == "Allow" then Raise else NoMatch
    ensures p != PrincipalName("*") ==>
      StatementStep(Parsed(Statement(Some(effect), Some(p), Some(ActionNotIterable)))) == NoMatch
  {
  }

  /** A public-read statement ends the statement loop, so a non-object after it
      is never reached and the bucket is flagged; a non-object before it
      aborts the run. */
  lemma PolicyScanOrder(o: Observation, s: Statement)
    requires (o.pab.PabFound? || o.pab.NoPabConfiguration?) && !o.acl.AclLookupRaised?
    requires GrantsPublicRead(s)
    ensures Classify(o.(policy := Statements([Parsed(s), NotAnObject]))).Assessed?
    ensures Classify(o.(policy := Statements([Parsed(s), NotAnObject]))).isPublic
    ensures PolicyPublicRead in Classify(o.(policy := Statements([Parsed(s), NotAnObject]))).reasons
    ensures Classify(o.(policy := Statements([NotAnObject, Parsed(s)]))) == Aborted
  {
    StatementStepMatches(Parsed(s));
    assert PolicyScan([Parsed(s), NotAnObject]) == Match;
    assert PolicyScan([NotAnObject, Parsed(s)]) == Raise;
  }

  /** Bucket "demo-public": no PAB configuration, an AllUsers READ grant, no policy. */
  lemma DemoPublic()
    ensures Classify(Observation("demo-public", NoPabConfiguration,
      Grants([Grant(Some(Grantee(Some("Group"), Some(AllUsersUri))), "READ")]),
      NoBucketPolicy, "t0")) == Assessed(true, [PabMissing, AclGroupGrant(AllUsers)])
  {
    var g := Grant(Some(Grantee(Some("Group"), Some(AllUsersUri))), "READ");
    AclGroupNamed(g);
    var o := Observation("demo-public", NoPabConfiguration, Grants([g]), NoBucketPolicy, "t0");
    assert AclScan([g]) == [AclGroupGrant(AllUsers)];
    assert AclTriggered(o.acl) by { assert IsPublicGrant(o.acl.grants[0]); }
  }

  /** Bucket "demo-private": all four PAB flags on, only an owner grant, no policy. */
  lemma DemoPrivate()
    ensures Classify(Observation("demo-private", PabFound(PabConfig(true, true, true, true)),
      Grants([Grant(Some(Grantee(Some("CanonicalUser"), None)), "FULL_CONTROL")]),
      NoBucketPolicy, "t0")) == Assessed(false, [])
  {
    var g := Grant(Some(Grantee(Some("CanonicalUser"), None)), "FULL_CONTROL");
    assert !IsPublicGrant(g);
    assert AclScan([g]) == AclScan([]);
  }

  lemma PabTextsFree()
    ensures Text.FreeOfSeparator(ReasonText(PabNotFullyEnabled))
    ensures Text.FreeOfSeparator(ReasonText(PabMissing))
  {
    assert ',' !in PabName;
    Text.NoCommaFree(ReasonText(PabNotFullyEnabled));
    Text.NoCommaFree(ReasonText(PabMissing));
  }

  lemma AclTextFree(group: string)
    requires ',' !in group
    ensures Text.FreeOfSeparator(ReasonText(AclGroupGrant(group)))
  {
    Text.NoCommaFree(ReasonText(AclGroupGrant(group)));
  }

  lemma PolicyTextFree()
    ensures Text.FreeOfSeparator(ReasonText(PolicyPublicRead))
  {
    Text.NoCommaFree(ReasonText(PolicyPublicRead));
  }

  /** The text of a reason the classifier can give holds no ", ". */
  lemma ReasonTextFree(r: Reason)
    requires r.AclGroupGrant? ==> r.group == AllUsers || r.group == AuthenticatedUsers
    ensures Text.FreeOfSeparator(ReasonText(r))
  {
    match r
    case PabNotFullyEnabled => PabTextsFree();
    case PabMissing => PabTextsFree();
    case AclGroupGrant(group) => AclTextFree(group);
    case PolicyPublicRead => PolicyTextFree();
  }

  /** No reason the classifier gives holds ", ", so a joined reason line splits back. */
  lemma ReasonsFreeOfSeparator(o: Observation)
    requires Classify(o).Assessed?
    ensures forall i :: 0 <= i < |Classify(o).reasons| ==>
      Text.FreeOfSeparator(ReasonText(Classify(o).reasons[i]))
  {
    ContributionsShaped(o);
    var rs := Classify(o).reasons;
    forall i | 0 <= i < |rs| ensures Text.FreeOfSeparator(ReasonText(rs[i])) {
      assert rs[i] in PabReasons(o.pab) + AclReasons(o.acl) + PolicyReasons(o.policy);
      ReasonTextFree(rs[i]);
    }
  }
}
