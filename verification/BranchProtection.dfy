/** Applying additive status checks to a protected branch: reads, evidence and at most one write against a remote that
    others may change at any moment. */
module BranchProtection {
  import opened Options

  datatype Check = Check(context: string, appId: int)

  datatype StatusChecks = StatusChecks(strict: bool, checks: seq<Check>)

  /** A validated policy document: the status checks, the rest of the protection, the classic rule and the rulesets. */
  datatype Document = Document(status: StatusChecks, others: map<string, string>, classicRule: string,
                               rulesets: seq<string>)

  /** What validation guarantees of the checks: at least one, each bound to an app, no context twice. */
  predicate ValidChecks(checks: seq<Check>) {
    && checks != []
    && (forall i | 0 <= i < |checks| :: checks[i].appId > 0 && checks[i].context != "")
    && forall i, j | 0 <= i < j < |checks| :: checks[i].context != checks[j].context
  }

  predicate ValidDocument(d: Document) {
    ValidChecks(d.status.checks) && d.rulesets == []
  }

  /** The binding of a context among the checks. */
  function Binding(checks: seq<Check>, context: string): Option<int> {
    if checks == [] then None
    else if checks[|checks| - 1].context == context then Some(checks[|checks| - 1].appId)
    else Binding(checks[..|checks| - 1], context)
  }

  lemma {:induction false} BindingIsTheCheck(checks: seq<Check>, context: string, appId: int)
    requires ValidChecks(checks) || checks == []
    ensures Binding(checks, context) == Some(appId) <==> Check(context, appId) in checks
  {
    if checks != [] {
      var rest := checks[..|checks| - 1];
      assert checks == rest + [checks[|checks| - 1]];
      if rest != [] { assert ValidChecks(rest); }
      BindingIsTheCheck(rest, context, appId);
      assert forall i | 0 <= i < |rest| :: rest[i].context != checks[|checks| - 1].context;
    }
  }

  function Unbound(checks: seq<Check>, prior: seq<Check>): seq<Check> {
    if checks == [] then []
    else Unbound(checks[..|checks| - 1], prior)
         + if Binding(prior, checks[|checks| - 1].context) == None then [checks[|checks| - 1]] else []
  }

  /** The checks to add, if everything else about the policy stays and every existing binding is preserved. */
  function Additions(current: Document, desired: Document): Option<seq<Check>> {
    var prior, future := current.status.checks, desired.status.checks;
    if current.classicRule != desired.classicRule || current.rulesets != desired.rulesets then None
    else if current.others != desired.others || current.status.strict != desired.status.strict then None
    else if exists i | 0 <= i < |prior| :: Binding(future, prior[i].context) != Some(prior[i].appId) then None
    else Some(Unbound(future, prior))
  }

  lemma {:induction false} UnboundIs(checks: seq<Check>, prior: seq<Check>, c: Check)
    ensures c in Unbound(checks, prior) <==> c in checks && Binding(prior, c.context) == None
  {
    if checks != [] {
      UnboundIs(checks[..|checks| - 1], prior, c);
      assert checks == checks[..|checks| - 1] + [checks[|checks| - 1]];
    }
  }

  lemma {:induction false} NoBindingIffAbsent(checks: seq<Check>, context: string)
    ensures Binding(checks, context) == None <==> forall c | c in checks :: c.context != context
  {
    if checks != [] {
      NoBindingIffAbsent(checks[..|checks| - 1], context);
      assert checks == checks[..|checks| - 1] + [checks[|checks| - 1]];
    }
  }

  /** When additions are allowed, the desired checks are exactly the current ones together with the added ones, and
      nothing else about the policy differs. */
  lemma AdditionsOnlyAdd(current: Document, desired: Document, c: Check)
    requires ValidDocument(current) && ValidDocument(desired) && Additions(current, desired).Some?
    ensures var added := Additions(current, desired).value;
      && (c in desired.status.checks <==> c in current.status.checks || c in added)
      && !(c in current.status.checks && c in added)
      && desired == current.(status := StatusChecks(current.status.strict, desired.status.checks))
  {
    var prior, future := current.status.checks, desired.status.checks;
    UnboundIs(future, prior, c);
    NoBindingIffAbsent(prior, c.context);
    if c in prior {
      var i :| 0 <= i < |prior| && prior[i] == c;
      assert Binding(future, prior[i].context) == Some(prior[i].appId);
      BindingIsTheCheck(future, c.context, c.appId);
    }
    if c in future && Binding(prior, c.context) != None {
      var p :| p in prior && p.context == c.context;
      var i :| 0 <= i < |prior| && prior[i] == p;
      assert Binding(future, prior[i].context) == Some(prior[i].appId);
      BindingIsTheCheck(future, c.context, p.appId);
      var j :| 0 <= j < |future| && future[j] == c;
      var k :| 0 <= k < |future| && future[k] == Check(c.context, p.appId);
      assert j == k;
    }
  }

  /** Additions are allowed exactly when nothing but the list of checks differs and every current check is still
      wanted. */
  lemma AdditionsIff(current: Document, desired: Document)
    requires ValidDocument(current) && ValidDocument(desired)
    ensures Additions(current, desired).Some? <==>
      && current.classicRule == desired.classicRule && current.rulesets == desired.rulesets
      && current.others == desired.others && current.status.strict == desired.status.strict
      && forall c | c in current.status.checks :: c in desired.status.checks
  {
    hide ValidChecks, Binding;
    var prior, future := current.status.checks, desired.status.checks;
    forall c | c in prior
      ensures Binding(future, c.context) == Some(c.appId) <==> c in future
    {
      BindingIsTheCheck(future, c.context, c.appId);
      assert Check(c.context, c.appId) == c;
    }
    if forall i | 0 <= i < |prior| :: Binding(future, prior[i].context) == Some(prior[i].appId) {
      forall c | c in prior ensures c in future {
        var i :| 0 <= i < |prior| && prior[i] == c;
      }
    }
  }

  // ----- evidence ----------------------------------------------------------------------------------------------------

  datatype CheckRun = CheckRun(name: string, headSha: string, status: string, conclusion: string, appId: int)

  datatype Evidence = Evidence(totalCount: int, runs: seq<CheckRun>)

  predicate FullSha(sha: string) {
    |sha| == 40 && forall i | 0 <= i < 40 :: '0' <= sha[i] <= '9' || 'a' <= sha[i] <= 'f'
  }

  function Named(runs: seq<CheckRun>, name: string): seq<CheckRun> {
    if runs == [] then []
    else Named(runs[..|runs| - 1], name) + if runs[|runs| - 1].name == name then [runs[|runs| - 1]] else []
  }

  predicate Green(check: Check, sha: string, evidence: Evidence) {
    var matching := Named(evidence.runs, check.context);
    |matching| == 1 && matching[0] == CheckRun(check.context, sha, "completed", "success", check.appId)
  }

  /** Run `i` is the only one of its name. */
  ghost predicate OnlyRun(runs: seq<CheckRun>, i: nat) {
    i < |runs| && forall j | 0 <= j < |runs| :: runs[j].name == runs[i].name ==> j == i
  }

  lemma {:induction false} NamedIs(runs: seq<CheckRun>, name: string, r: CheckRun)
    ensures r in Named(runs, name) <==> r in runs && r.name == name
    ensures Named(runs, name) == [] <==> forall i | 0 <= i < |runs| :: runs[i].name != name
  {
    if runs != [] {
      NamedIs(runs[..|runs| - 1], name, r);
      assert runs == runs[..|runs| - 1] + [runs[|runs| - 1]];
    }
  }

  /** `r` is among the runs and no other run bears its name. */
  ghost predicate Sole(runs: seq<CheckRun>, r: CheckRun) {
    exists i: nat :: OnlyRun(runs, i) && runs[i] == r
  }

  lemma SoleWithNamesake(front: seq<CheckRun>, last: CheckRun, r: CheckRun)
    requires last.name == r.name
    ensures Sole(front + [last], r) <==> last == r && forall i | 0 <= i < |front| :: front[i].name != r.name
  {
    var runs := front + [last];
    if Sole(runs, r) {
      var i: nat :| OnlyRun(runs, i) && runs[i] == r;
      assert runs[|front|] == last;
      forall j | 0 <= j < |front| ensures front[j].name != r.name {
        assert runs[j] == front[j];
      }
    }
    if last == r && forall i | 0 <= i < |front| :: front[i].name != r.name {
      assert OnlyRun(runs, |front|);
    }
  }

  lemma SoleWithStranger(front: seq<CheckRun>, last: CheckRun, r: CheckRun)
    requires last.name != r.name
    ensures Sole(front + [last], r) <==> Sole(front, r)
  {
    var runs := front + [last];
    if Sole(front, r) {
      var i: nat :| OnlyRun(front, i) && front[i] == r;
      assert OnlyRun(runs, i) && runs[i] == r;
    }
    if Sole(runs, r) {
      var i: nat :| OnlyRun(runs, i) && runs[i] == r;
      assert i < |front| && forall j | 0 <= j < |front| :: front[j] == runs[j];
      assert OnlyRun(front, i);
    }
  }

  lemma {:induction false} OneNamedIffSole(runs: seq<CheckRun>, r: CheckRun)
    ensures Named(runs, r.name) == [r] <==> Sole(runs, r)
  {
    hide Sole;
    if runs == [] {
      NoRunIsSole(r);
    } else {
      var front, last := runs[..|runs| - 1], runs[|runs| - 1];
      assert runs == front + [last];
      if last.name == r.name {
        NamedIs(front, r.name, r);
        SoleWithNamesake(front, last, r);
        LastAlone(Named(front, r.name), last, r);
      } else {
        SoleWithStranger(front, last, r);
        OneNamedIffSole(front, r);
      }
    }
  }

  lemma LastAlone(front: seq<CheckRun>, last: CheckRun, r: CheckRun)
    ensures front + [last] == [r] <==> front == [] && last == r
  {
    if front + [last] == [r] {
      assert |front + [last]| == 1 && (front + [last])[0] == r;
    }
  }

  lemma NoRunIsSole(r: CheckRun)
    ensures !Sole([], r)
  {
  }

  /** A check counts as green exactly when one run bears its name, and that run completed with success at the given
      commit under the app the check is bound to. */
  lemma GreenIffOneGoodRun(check: Check, sha: string, evidence: Evidence)
    ensures Green(check, sha, evidence) <==>
      Sole(evidence.runs, CheckRun(check.context, sha, "completed", "success", check.appId))
  {
    hide Sole, Named;
    OneNamedIffSole(evidence.runs, CheckRun(check.context, sha, "completed", "success", check.appId));
  }

  predicate VerifiedGreen(sha: string, added: seq<Check>, evidence: Evidence) {
    && FullSha(sha)
    && (added == [] ||
        (0 <= evidence.totalCount <= 100 && |evidence.runs| == evidence.totalCount
         && forall i | 0 <= i < |added| :: Green(added[i], sha, evidence)))
  }

  // ----- the protocol ------------------------------------------------------------------------------------------------

  datatype Event = Read(seen: Option<Document>) | Write(payload: StatusChecks)

  /** The remote: `policies` is what each read will find, decided by whoever else acts between our calls; a read that
      finds no valid policy fails. `log` is what was asked of the remote. */
  class Remote {
    var policies: seq<Option<Document>>
    var log: seq<Event>

    constructor (policies: seq<Option<Document>>)
      ensures this.policies == policies && log == []
    {
      this.policies, log := policies, [];
    }

    method Live() returns (seen: Option<Document>)
      modifies this
      ensures seen == (if old(policies) == [] then None else old(policies)[0])
      ensures policies == (if old(policies) == [] then [] else old(policies)[1..]) && log == old(log) + [Read(seen)]
    {
      seen := if policies == [] then None else policies[0];
      policies := if policies == [] then [] else policies[1..];
      log := log + [Read(seen)];
    }

    method PatchStatusChecks(payload: StatusChecks)
      modifies this`log
      ensures log == old(log) + [Write(payload)]
    {
      log := log + [Write(payload)];
    }
  }

  /** The writes among what was asked. */
  function Writes(log: seq<Event>): seq<StatusChecks> {
    if log == [] then []
    else Writes(log[..|log| - 1]) + match log[|log| - 1] case Write(payload) => [payload] case Read(_) => []
  }

  function ReadAt(policies: seq<Option<Document>>, i: nat): Option<Document> {
    if i < |policies| then policies[i] else None
  }

  /** What must hold before anything is written. */
  predicate Cleared(inCi: bool, desired: Document, expected: Document, sha: string, evidence: Evidence,
                    policies: seq<Option<Document>>)
  {
    && !inCi && ReadAt(policies, 0) == Some(expected) && ReadAt(policies, 1) == Some(expected)
    && Additions(expected, desired).Some? && VerifiedGreen(sha, Additions(expected, desired).value, evidence)
  }

  /** `apply`, against any remote: it passes exactly when it was cleared and the last read is the desired policy, and it
      writes exactly once, the desired status checks, when it was cleared and there is something to add. */
  method Apply(inCi: bool, desired: Document, expected: Document, sha: string, evidence: Evidence, remote: Remote)
    returns (pass: bool)
    requires remote.log == []
    modifies remote
    ensures pass <==> Cleared(inCi, desired, expected, sha, evidence, old(remote.policies))
                      && (expected == desired || ReadAt(old(remote.policies), 2) == Some(desired))
    ensures pass ==> remote.log != [] && remote.log[|remote.log| - 1] == Read(Some(desired))
    ensures Writes(remote.log) == [] || remote.log == [Read(Some(expected)), Read(Some(expected)), Write(desired.status),
                                                       Read(ReadAt(old(remote.policies), 2))]
    ensures Writes(remote.log) ==
      if Cleared(inCi, desired, expected, sha, evidence, old(remote.policies)) && expected != desired
      then [desired.status] else []
  {
    hide Additions, VerifiedGreen;
    if inCi {
      return false;
    }
    var current := remote.Live();
    if current != Some(expected) {
      return false;
    }
    var added := Additions(expected, desired);
    if added.None? {
      return false;
    }
    if !VerifiedGreen(sha, added.value, evidence) {
      return false;
    }
    var again := remote.Live();
    TwoReads(current, again);
    if again != Some(expected) {
      return false;
    }
    if expected == desired {
      return true;
    }
    remote.PatchStatusChecks(desired.status);
    var after := remote.Live();
    ReadWriteRead(current, again, desired.status, after);
    return after == Some(desired);
  }

  lemma TwoReads(a: Option<Document>, b: Option<Document>)
    ensures Writes([] + [Read(a)] + [Read(b)]) == []
  {
    var log := [] + [Read(a)] + [Read(b)];
    assert log[..1] == [Read(a)] && log[..1][..0] == [];
    assert Writes(log[..1]) == [];
  }

  lemma ReadWriteRead(a: Option<Document>, b: Option<Document>, payload: StatusChecks, c: Option<Document>)
    ensures Writes([] + [Read(a)] + [Read(b)] + [Write(payload)] + [Read(c)]) == [payload]
  {
    TwoReads(a, b);
    var log := [] + [Read(a)] + [Read(b)] + [Write(payload)] + [Read(c)];
    assert log[..3][..2] == [] + [Read(a)] + [Read(b)];
    assert log[..3][2] == Write(payload);
  }

  /** Whatever the remote does, a payload that is written keeps every expected binding, adds only checks seen green
      from their own app at the given commit, and leaves everything that is not a status check as expected. */
  lemma WrittenPayloadIsAdditive(inCi: bool, desired: Document, expected: Document, sha: string, evidence: Evidence,
                                 policies: seq<Option<Document>>, c: Check)
    requires ValidDocument(desired) && ValidDocument(expected)
    requires Cleared(inCi, desired, expected, sha, evidence, policies)
    ensures c in expected.status.checks ==> c in desired.status.checks
    ensures c in desired.status.checks && c !in expected.status.checks ==>
      Green(c, sha, evidence) && |evidence.runs| == evidence.totalCount <= 100
    ensures |sha| == 40 && forall i | 0 <= i < 40 :: sha[i] in "0123456789abcdef"
    ensures desired == expected.(status := StatusChecks(expected.status.strict, desired.status.checks))
  {
    AdditionsOnlyAdd(expected, desired, c);
    if c in Additions(expected, desired).value {
      var added := Additions(expected, desired).value;
      var i :| 0 <= i < |added| && added[i] == c;
    }
  }
}
