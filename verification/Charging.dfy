/** Which lanes a request is charged in, said of the caller and the policies: a caller is charged as principal, under
    its key, as the user it acts for when there is one, and under its token when it has one, in the period of every
    policy of each. The lane lists that admission and settlement build are exactly these. */
module Charging {
  import opened Prelude
  import opened Calendar
  import opened Reservations
  import opened Protocol

  predicate Charges(c: Caller, lane: Lane, subject: string) {
    match lane
    case PrincipalLane => subject == c.principal
    case KeyLane => subject == c.key
    case UserLane => c.user != "" && subject == c.user
    case TokenLane => c.token != "" && subject == "token:" + c.token
  }

  ghost predicate HasPolicy(cfg: Config, lane: Lane, subject: string, policy: Policy) {
    (lane, subject) in cfg.policies && policy in cfg.policies[(lane, subject)]
  }

  // Some policy of the caller's has this lane, subject and period.
  ghost predicate Charged(cfg: Config, c: Caller, a: Addr) {
    Charges(c, a.lane, a.subject) && exists policy :: HasPolicy(cfg, a.lane, a.subject, policy) && policy.period == a.period
  }

  // What a settlement debits: the lanes its reservation lists or, without any, the lanes the caller is charged in.
  ghost predicate Debited(cfg: Config, table: Option<Table>, s: Settlement, a: Addr) {
    if table.Some? && s.rid in table.value.rows && table.value.rows[s.rid].lanes != [] then a in table.value.rows[s.rid].lanes
    else Charged(cfg, s.caller, a)
  }

  lemma SubjectsAre(c: Caller, lane: Lane, subject: string)
    ensures (lane, subject) in Subjects(c) <==> Charges(c, lane, subject)
  {
  }

  lemma {:induction false} ChecksForComplete(cfg: Config, subjects: seq<(Lane, string)>, c: Check)
    ensures c in ChecksFor(cfg, subjects) ==> (c.addr.lane, c.addr.subject) in subjects && c.addr.period == c.policy.period
                                              && c.policy in PoliciesOf(cfg, c.addr.lane, c.addr.subject)
    ensures ((c.addr.lane, c.addr.subject) in subjects && c.policy in PoliciesOf(cfg, c.addr.lane, c.addr.subject)
             && c.addr.period == c.policy.period) ==> c in ChecksFor(cfg, subjects)
  {
    if subjects != [] {
      ChecksForComplete(cfg, subjects[1..], c);
      assert subjects == [subjects[0]] + subjects[1..];
      var policies := PoliciesOf(cfg, subjects[0].0, subjects[0].1);
      var here := LaneChecks(subjects[0].0, subjects[0].1, policies);
      if (c.addr.lane, c.addr.subject) == subjects[0] && c.policy in policies && c.addr.period == c.policy.period {
        var i :| 0 <= i < |policies| && policies[i] == c.policy;
        assert here[i] == c;
      }
    }
  }

  // A request is checked against exactly the policies of the lanes its caller is charged in.
  lemma ChecksAre(cfg: Config, c: Caller, check: Check)
    ensures check in Checks(cfg, c) <==>
              && Charges(c, check.addr.lane, check.addr.subject) && check.addr.period == check.policy.period
              && HasPolicy(cfg, check.addr.lane, check.addr.subject, check.policy)
  {
    ChecksForComplete(cfg, Subjects(c), check);
    SubjectsAre(c, check.addr.lane, check.addr.subject);
    hide ChecksFor, Subjects, Charges;
  }

  lemma LanesAre(cfg: Config, c: Caller, a: Addr)
    ensures a in Addrs(Checks(cfg, c)) <==> Charged(cfg, c, a)
  {
    hide Checks, Charges, HasPolicy;
    var checks := Checks(cfg, c);
    if a in Addrs(checks) {
      var i :| 0 <= i < |checks| && checks[i].addr == a;
      ChecksAre(cfg, c, checks[i]);
    }
    if Charged(cfg, c, a) {
      var policy :| HasPolicy(cfg, a.lane, a.subject, policy) && policy.period == a.period;
      ChecksAre(cfg, c, Check(a, policy));
      var i :| 0 <= i < |checks| && checks[i] == Check(a, policy);
      assert Addrs(checks)[i] == a;
    }
  }

  lemma DebitsAre(cfg: Config, table: Option<Table>, s: Settlement, a: Addr)
    ensures a in LanesToDebit(cfg, table, s) <==> Debited(cfg, table, s, a)
  {
    LanesAre(cfg, s.caller, a);
    hide Checks, Charged;
  }
}
