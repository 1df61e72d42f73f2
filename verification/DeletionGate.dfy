/** decide: the four-signature gate in front of a deletion. */
module DeletionGate {
  import opened Hashing
  import Sessions

  /** A role needs to be one of these for its approval to count. */
  const APPROVER_ROLES: set<string> :=
    {"chief_auditor", "compliance_officer", "security_officer", "executive_authority"}

  datatype Decision = Approve | Reject

  datatype Status = Pending | Rejected | Executed

  datatype Vote = Vote(role: string, decision: Decision)

  /** A request row, its votes in the order they were cast, and how often its action took effect;
      `targetFound` says whether the thing to delete exists in the request's tenant. */
  datatype Gate = Gate(status: Status, votes: seq<Vote>, actions: nat, targetFound: bool)

  function NewGate(targetFound: bool): Gate { Gate(Pending, [], 0, targetFound) }

  /** A call of decide. `crashed` means that the process dies just before the final commit: with the vote
      added, and the gated action, when it is due, done. */
  datatype Ballot = Ballot(role: string, decision: Decision, crashed: bool)

  datatype Outcome = Recorded(executed: bool) | AlreadyDecided | RoleAlreadyVoted | Crashed

  // ------------------------------------------------------ what a call does

  predicate HasVoted(votes: seq<Vote>, role: string) { exists v | v in votes :: v.role == role }

  predicate AllApproved(votes: seq<Vote>) { forall r | r in APPROVER_ROLES :: Vote(r, Approve) in votes }

  /** The call that brings the last missing approval. */
  predicate Completes(g: Gate, b: Ballot) {
    g.status == Pending && !HasVoted(g.votes, b.role) && b.decision == Approve &&
    AllApproved(g.votes + [Vote(b.role, Approve)])
  }

  function Result(g: Gate, b: Ballot): Outcome {
    if g.status != Pending then AlreadyDecided
    else if HasVoted(g.votes, b.role) then RoleAlreadyVoted
    else if b.crashed then Crashed
    else Recorded(Completes(g, b))
  }

  /** A call commits at its end, so a crash before that loses the vote. But deactivating the target commits
      by itself, the vote with it; only then is the status set. So a crash in between keeps the vote and the
      action and leaves the status. */
  function Next(g: Gate, b: Ballot): Gate {
    if g.status != Pending || HasVoted(g.votes, b.role) then g
    else
      var votes := g.votes + [Vote(b.role, b.decision)];
      var done := if g.targetFound then 1 else 0;
      if Completes(g, b) then
        if !b.crashed then g.(votes := votes, status := Executed, actions := g.actions + done)
        else if g.targetFound then g.(votes := votes, actions := g.actions + done)
        else g
      else if b.crashed then g
      else if b.decision == Reject then g.(votes := votes, status := Rejected)
      else g.(votes := votes)
  }

  function Run(g: Gate, ballots: seq<Ballot>): Gate
    decreases |ballots|
  {
    if ballots == [] then g else Run(Next(g, ballots[0]), ballots[1..])
  }

  datatype Target = UserTarget(user: Sessions.UserId) | SourceTarget(source: nat) | OtherTarget

  datatype Source = Source(tenantId: Sessions.Tenant, isActive: bool)

  /** Only a user target changes the user and session rows: it is deactivated within its tenant. */
  function UsersAfter(H: Digest, s: Sessions.Accounts, target: Target, tenantId: Sessions.Tenant): Sessions.Accounts {
    if target.UserTarget? then Sessions.Next(H, s, Sessions.DeactivateUser(target.user, tenantId)) else s
  }

  function SourcesAfter(sources: map<nat, Source>, target: Target, tenantId: Sessions.Tenant): map<nat, Source> {
    if target.SourceTarget? && target.source in sources && sources[target.source].tenantId == tenantId
    then sources[target.source := sources[target.source].(isActive := false)] else sources
  }

  /** What executing a deletion does to its target: a user of the tenant is deactivated and loses all sessions, a
      source of the tenant is deactivated, and nothing else changes. */
  lemma TargetDeactivated(H: Digest, s: Sessions.Accounts, sources: map<nat, Source>, target: Target,
                          tenantId: Sessions.Tenant)
    ensures var t, after := UsersAfter(H, s, target, tenantId), SourcesAfter(sources, target, tenantId);
            match target
            case UserTarget(u) =>
              && after == sources && t.users.Keys == s.users.Keys
              && (forall x | x in s.users && x != u :: t.users[x] == s.users[x])
              && if u in s.users && s.users[u].tenantId.Some? && s.users[u].tenantId.value == tenantId then
                   t.users[u] == s.users[u].(isActive := false) && (forall h | h in t.sessions :: h in s.sessions) &&
                   forall h | h in s.sessions ::
                     if s.sessions[h].userId == u then h !in t.sessions
                     else h in t.sessions && t.sessions[h] == s.sessions[h]
                 else t == s
            case SourceTarget(i) =>
              && t == s && after.Keys == sources.Keys
              && forall j | j in sources ::
                after[j] == if j == i && sources[j].tenantId == tenantId then Source(tenantId, false) else sources[j]
            case OtherTarget => t == s && after == sources
  {
  }

  class DeletionRequest {
    const tenantId: Sessions.Tenant
    const target: Target
    const users: Sessions.UserService
    var sources: map<nat, Source>
    var status: Status
    var votes: seq<Vote>
    ghost var actions: nat

    constructor (tenantId: Sessions.Tenant, target: Target, users: Sessions.UserService, sources: map<nat, Source>)
      ensures this.tenantId == tenantId && this.target == target && this.users == users && this.sources == sources
      ensures status == Pending && votes == [] && actions == 0
    {
      this.tenantId := tenantId;
      this.target := target;
      this.users := users;
      this.sources := sources;
      status, votes, actions := Pending, [], 0;
    }

    ghost predicate TargetFound()
      reads this, users
    {
      match target
      case UserTarget(u) => Sessions.InTenant(users.State(), u, tenantId)
      case SourceTarget(i) => i in sources && sources[i].tenantId == tenantId
      case OtherTarget => false
    }

    ghost function State(): Gate
      reads this, users
    {
      Gate(status, votes, actions, TargetFound())
    }

    method Execute()
      modifies this`sources, this`actions, users
      ensures users.State() == UsersAfter(users.H, old(users.State()), target, tenantId)
      ensures sources == SourcesAfter(old(sources), target, tenantId)
      ensures actions == old(actions) + if old(TargetFound()) then 1 else 0
      ensures TargetFound() == old(TargetFound())
    {
      match target
      case UserTarget(u) =>
        var found := users.DeactivateUser(u, tenantId);
        if found { actions := actions + 1; }
      case SourceTarget(i) =>
        if i in sources && sources[i].tenantId == tenantId {
          sources := sources[i := sources[i].(isActive := false)];
          actions := actions + 1;
        }
      case OtherTarget =>
    }

    method Decide(role: string, decision: Decision) returns (outcome: Outcome)
      modifies this`status, this`votes, this`sources, this`actions, users
      ensures outcome == Result(old(State()), Ballot(role, decision, false))
      ensures State() == Next(old(State()), Ballot(role, decision, false))
      ensures outcome == Recorded(true) ==>
                users.State() == UsersAfter(users.H, old(users.State()), target, tenantId) &&
                sources == SourcesAfter(old(sources), target, tenantId)
      ensures outcome != Recorded(true) ==> users.State() == old(users.State()) && sources == old(sources)
    {
      if status != Pending {
        return AlreadyDecided;
      }
      if exists v | v in votes :: v.role == role {
        return RoleAlreadyVoted;
      }
      votes := votes + [Vote(role, decision)];
      if decision == Reject {
        status := Rejected;
        return Recorded(false);
      }
      var approvedRoles := set v | v in votes && v.decision == Approve :: v.role;
      ApprovedRoles(votes, approvedRoles);
      if APPROVER_ROLES <= approvedRoles {
        Execute();
        status := Executed;
        return Recorded(true);
      }
      return Recorded(false);
    }
  }

  lemma ApprovedRoles(votes: seq<Vote>, approved: set<string>)
    requires approved == set v | v in votes && v.decision == Approve :: v.role
    ensures APPROVER_ROLES <= approved <==> AllApproved(votes)
  {
    forall r ensures r in approved <==> Vote(r, Approve) in votes {
      if r in approved {
        var v :| v in votes && v.decision == Approve && v.role == r;
        assert v == Vote(r, Approve);
      }
    }
  }

  // ---------------------------------------------------- what a status means

  predicate OneVotePerRole(votes: seq<Vote>) { forall i, j | 0 <= i < j < |votes| :: votes[i].role != votes[j].role }

  predicate NoReject(votes: seq<Vote>) { forall v | v in votes :: v.decision == Approve }

  /** Executed: all four roles approved; rejected: one rejection, and it was the last vote; pending: no
      rejection, and some approval is missing. The action took effect exactly if executed. */
  predicate Truthful(g: Gate) {
    && OneVotePerRole(g.votes)
    && (g.status == Executed <==> AllApproved(g.votes))
    && (g.status == Rejected <==> !NoReject(g.votes))
    && (g.status == Rejected ==> g.votes != [] && NoReject(g.votes[..|g.votes| - 1]))
    && g.actions == if g.status == Executed && g.targetFound then 1 else 0
  }

  lemma VoteAdded(votes: seq<Vote>, v: Vote) returns (more: seq<Vote>)
    requires OneVotePerRole(votes) && !HasVoted(votes, v.role)
    ensures more == votes + [v] && more[..|more| - 1] == votes && OneVotePerRole(more)
    ensures NoReject(more) <==> NoReject(votes) && v.decision == Approve
    ensures AllApproved(votes) ==> AllApproved(more)
    ensures v.decision == Reject ==> (AllApproved(more) <==> AllApproved(votes))
  {
    more := votes + [v];
    forall i | 0 <= i < |votes| ensures votes[i].role != v.role {
      assert votes[i] in votes;
    }
    assert v in more;
    assert forall x | x in votes :: x in more;
    assert forall x | x in more :: x in votes || x == v;
  }

  /** A call keeps the status truthful, unless it completes the approvals of an existing target and the
      process crashes before the status is set. */
  lemma TruthfulIff(g: Gate, b: Ballot)
    requires Truthful(g)
    ensures Truthful(Next(g, b)) <==> !(Completes(g, b) && b.crashed && g.targetFound)
  {
    if g.status == Pending && !HasVoted(g.votes, b.role) {
      var more := VoteAdded(g.votes, Vote(b.role, b.decision));
    }
  }

  /** Some call of the run crashes between the deactivation and the final commit. */
  ghost predicate Strands(g: Gate, ballots: seq<Ballot>)
    decreases |ballots|
  {
    ballots != [] && ((Completes(g, ballots[0]) && ballots[0].crashed && g.targetFound)
                      || Strands(Next(g, ballots[0]), ballots[1..]))
  }

  /** In every serial run, whatever other calls crash, the status is truthful at the end exactly if no call
      crashed there. */
  lemma {:induction false} StatusMeansIff(g: Gate, ballots: seq<Ballot>)
    requires Truthful(g)
    ensures Truthful(Run(g, ballots)) <==> !Strands(g, ballots)
    decreases |ballots|
  {
    if ballots != [] {
      TruthfulIff(g, ballots[0]);
      if Completes(g, ballots[0]) && ballots[0].crashed && g.targetFound {
        FalseForGood(Next(g, ballots[0]), ballots[1..]);
      } else {
        StatusMeansIff(Next(g, ballots[0]), ballots[1..]);
      }
    }
  }

  /** What such a crash leaves: the action is done, and unless it is done again, the status is not set. */
  predicate Stuck(g: Gate) {
    g.targetFound && AllApproved(g.votes) && g.actions >= 1 && (g.status == Executed ==> g.actions >= 2)
  }

  lemma {:induction false} FalseForGood(g: Gate, ballots: seq<Ballot>)
    requires Stuck(g)
    ensures !Truthful(Run(g, ballots))
    decreases |ballots|
  {
    if ballots != [] { FalseForGood(Next(g, ballots[0]), ballots[1..]); }
  }

  /** Any other crash, at whatever point of a run, loses the vote and leaves no trace in the rest. */
  lemma {:induction false} CrashedVoteIsLost(g: Gate, before: seq<Ballot>, b: Ballot, later: seq<Ballot>)
    requires b.crashed && !(Completes(Run(g, before), b) && Run(g, before).targetFound)
    ensures Run(g, before + [b] + later) == Run(g, before + later)
    decreases |before|
  {
    var with, without := before + [b] + later, before + later;
    if before == [] {
      assert with[0] == b && with[1..] == later && without == later;
    } else {
      assert with[1..] == before[1..] + [b] + later && without[1..] == before[1..] + later;
      assert with[0] == before[0] && without[0] == before[0];
      CrashedVoteIsLost(Next(g, before[0]), before[1..], b, later);
    }
  }

  /** A decided request stays as it is, and every later call is refused. */
  lemma {:induction false} DecidedIsFinal(g: Gate, ballots: seq<Ballot>, b: Ballot)
    requires g.status != Pending
    ensures Run(g, ballots) == g && Result(Run(g, ballots), b) == AlreadyDecided
    decreases |ballots|
  {
    if ballots != [] { DecidedIsFinal(Next(g, ballots[0]), ballots[1..], b); }
  }

  lemma {:induction false} SubsetCardinality<T>(a: set<T>, b: set<T>)
    requires a <= b
    ensures |a| <= |b| && (|a| == |b| ==> a == b)
  {
    if a != {} {
      var x :| x in a;
      SubsetCardinality(a - {x}, b - {x});
    }
  }

  function RolesOf(votes: seq<Vote>): set<string> { set v | v in votes :: v.role }

  lemma {:induction false} DistinctRoles(votes: seq<Vote>)
    requires OneVotePerRole(votes)
    ensures |RolesOf(votes)| == |votes|
  {
    if votes != [] {
      var n := |votes| - 1;
      DistinctRoles(votes[..n]);
      assert votes == votes[..n] + [votes[n]];
      assert RolesOf(votes) == RolesOf(votes[..n]) + {votes[n].role};
    }
  }

  lemma FourRoles()
    ensures |APPROVER_ROLES| == 4
  {
    assert "chief_auditor" != "compliance_officer" && "chief_auditor" != "security_officer" &&
           "chief_auditor" != "executive_authority" && "compliance_officer" != "security_officer" &&
           "compliance_officer" != "executive_authority" && "security_officer" != "executive_authority" by {
      assert |"chief_auditor"| == 13 && |"compliance_officer"| == 18 && |"security_officer"| == 16;
      assert |"executive_authority"| == 19;
    }
  }

  /** With voters from the four approver roles only, executed means exactly four votes, one approval from
      each role. */
  lemma ExecutedByFour(ballots: seq<Ballot>, targetFound: bool)
    requires !Strands(NewGate(targetFound), ballots) && forall b | b in ballots :: b.role in APPROVER_ROLES
    ensures var g := Run(NewGate(targetFound), ballots);
            g.status == Executed <==> |g.votes| == 4 && NoReject(g.votes) && RolesOf(g.votes) == APPROVER_ROLES
  {
    var g := Run(NewGate(targetFound), ballots);
    StatusMeansIff(NewGate(targetFound), ballots);
    VotesFrom(NewGate(targetFound), ballots);
    DistinctRoles(g.votes);
    FourRoles();
    if g.status == Executed {
      forall r | r in APPROVER_ROLES ensures r in RolesOf(g.votes) {
        assert Vote(r, Approve) in g.votes && Vote(r, Approve).role == r;
      }
    }
    if NoReject(g.votes) && RolesOf(g.votes) == APPROVER_ROLES {
      forall r | r in APPROVER_ROLES ensures Vote(r, Approve) in g.votes {
        var v :| v in g.votes && v.role == r;
        assert v == Vote(r, Approve);
      }
    }
  }

  lemma {:induction false} VotesFrom(g: Gate, ballots: seq<Ballot>)
    requires forall b | b in ballots :: b.role in APPROVER_ROLES
    requires RolesOf(g.votes) <= APPROVER_ROLES
    ensures RolesOf(Run(g, ballots).votes) <= APPROVER_ROLES
    decreases |ballots|
  {
    if ballots != [] { VotesFrom(Next(g, ballots[0]), ballots[1..]); }
  }

  // --------------------------------------------------- every order executes

  function Approvals(roles: seq<string>): (b: seq<Ballot>)
    ensures |b| == |roles| && forall i | 0 <= i < |b| :: b[i] == Ballot(roles[i], Approve, false)
  {
    seq(|roles|, i requires 0 <= i < |roles| => Ballot(roles[i], Approve, false))
  }

  function ApprovalVotes(roles: seq<string>): (v: seq<Vote>)
    ensures |v| == |roles| && forall i | 0 <= i < |v| :: v[i] == Vote(roles[i], Approve)
  {
    seq(|roles|, i requires 0 <= i < |roles| => Vote(roles[i], Approve))
  }

  lemma {:induction false} RunLast(g: Gate, ballots: seq<Ballot>, b: Ballot)
    ensures Run(g, ballots + [b]) == Next(Run(g, ballots), b)
    decreases |ballots|
  {
    if ballots == [] {
      assert [] + [b] == [b] && [b][1..] == [];
    } else {
      assert (ballots + [b])[1..] == ballots[1..] + [b];
      RunLast(Next(g, ballots[0]), ballots[1..], b);
    }
  }

  lemma TooFew(roles: seq<string>)
    requires |roles| < 4
    ensures !AllApproved(ApprovalVotes(roles))
  {
    if AllApproved(ApprovalVotes(roles)) {
      var s := set r | r in roles;
      SetOfSeq(roles, s);
      forall r | r in APPROVER_ROLES ensures r in s {
        var i :| 0 <= i < |roles| && ApprovalVotes(roles)[i] == Vote(r, Approve);
        assert roles[i] == r;
      }
      FourRoles();
      SubsetCardinality(APPROVER_ROLES, s);
      assert false;
    }
  }

  lemma {:induction false} SetOfSeq(roles: seq<string>, s: set<string>)
    requires s == set r | r in roles
    ensures |s| <= |roles|
  {
    if roles != [] {
      var n := |roles| - 1;
      var before := set r | r in roles[..n];
      SetOfSeq(roles[..n], before);
      assert s == before + {roles[n]} by { assert roles == roles[..n] + [roles[n]]; }
    }
  }

  lemma {:induction false} FewerStayPending(roles: seq<string>, targetFound: bool)
    requires |roles| < 4 && forall i, j | 0 <= i < j < |roles| :: roles[i] != roles[j]
    ensures Run(NewGate(targetFound), Approvals(roles)) == Gate(Pending, ApprovalVotes(roles), 0, targetFound)
  {
    if roles != [] {
      var n := |roles| - 1;
      var before := roles[..n];
      FewerStayPending(before, targetFound);
      assert Approvals(roles) == Approvals(before) + [Ballot(roles[n], Approve, false)];
      RunLast(NewGate(targetFound), Approvals(before), Ballot(roles[n], Approve, false));
      assert ApprovalVotes(roles) == ApprovalVotes(before) + [Vote(roles[n], Approve)];
      NotYet(before, roles[n]);
      TooFew(roles);
    }
  }

  lemma NotYet(roles: seq<string>, role: string)
    requires role !in roles
    ensures !HasVoted(ApprovalVotes(roles), role)
  {
  }

  /** The four roles may approve in any order: pending until the fourth, and then the action is executed. */
  lemma AnyOrderExecutes(roles: seq<string>, targetFound: bool)
    requires |roles| == 4 && (forall i, j | 0 <= i < j < |roles| :: roles[i] != roles[j])
    requires forall r | r in roles :: r in APPROVER_ROLES
    ensures forall k | 0 <= k < 4 :: Run(NewGate(targetFound), Approvals(roles[..k])).status == Pending
    ensures Run(NewGate(targetFound), Approvals(roles))
         == Gate(Executed, ApprovalVotes(roles), if targetFound then 1 else 0, targetFound)
  {
    forall k | 0 <= k < 4 ensures Run(NewGate(targetFound), Approvals(roles[..k])).status == Pending {
      FewerStayPending(roles[..k], targetFound);
    }
    var before := roles[..3];
    FewerStayPending(before, targetFound);
    assert Approvals(roles) == Approvals(before) + [Ballot(roles[3], Approve, false)];
    RunLast(NewGate(targetFound), Approvals(before), Ballot(roles[3], Approve, false));
    assert ApprovalVotes(roles) == ApprovalVotes(before) + [Vote(roles[3], Approve)];
    NotYet(before, roles[3]);
    AllFour(roles);
  }

  lemma AllFour(roles: seq<string>)
    requires |roles| == 4 && (forall i, j | 0 <= i < j < |roles| :: roles[i] != roles[j])
    requires forall r | r in roles :: r in APPROVER_ROLES
    ensures AllApproved(ApprovalVotes(roles))
  {
    var votes := ApprovalVotes(roles);
    DistinctRoles(votes);
    FourRoles();
    SubsetCardinality(RolesOf(votes), APPROVER_ROLES);
    forall r | r in APPROVER_ROLES ensures Vote(r, Approve) in votes {
      assert r in RolesOf(votes);
    }
  }

  // ------------------------------------------------------------- the crash

  /** After a crash between the deactivation and the final commit the request is pending with all four
      approvals and its action done, and no approver role can ever decide it any more. */
  lemma {:induction false} CrashStrands(g: Gate, b: Ballot, ballots: seq<Ballot>, last: Ballot)
    requires Truthful(g) && Completes(g, b) && b.crashed && g.targetFound
    requires (forall x | x in ballots :: x.role in APPROVER_ROLES) && last.role in APPROVER_ROLES
    ensures var h := Run(Next(g, b), ballots);
            h.status == Pending && AllApproved(h.votes) && h.actions == 1 && Result(h, last) == RoleAlreadyVoted
  {
    Stranded(Next(g, b), ballots);
  }

  lemma {:induction false} Stranded(g: Gate, ballots: seq<Ballot>)
    requires g.status == Pending && AllApproved(g.votes) && forall x | x in ballots :: x.role in APPROVER_ROLES
    ensures Run(g, ballots) == g
    decreases |ballots|
  {
    if ballots != [] { Stranded(Next(g, ballots[0]), ballots[1..]); }
  }
}
