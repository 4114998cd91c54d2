/** How a scope candidate and the assignment made from it are recognised as the same projection:
    backend/organization-structure/scopeCandidateIntegration.js. Both sides build one string out of eleven
    components; the assignment has to recover the rule and its version from its source version first. */
module ScopeIdentity {
  import opened Wrappers

  /** The absent fields of a target are empty; exactly one of the last three is present in a valid one. */
  datatype Target = Target(kind: string, dimensionKey: string, relationshipKey: string,
                           dimensionValueId: string, unitId: string, resourceRef: string)

  datatype Source = Source(kind: string, id: string, version: string, active: bool, validFrom: int,
                           validUntil: Option<int>)

  datatype Candidate = Candidate(organization: string, subject: string, role: string, capability: string,
                                 target: Target, source: Source, ruleId: string, ruleVersion: string)

  /** The fields of an assignment that its identity is computed from. */
  datatype Assignment = Assignment(organization: string, user: string, role: string, capability: string,
                                   target: Target, sourceType: string, sourceRef: string, sourceVersion: string)

  function Present(s: string): nat {
    if s == "" then 0 else 1
  }

  /** Otherwise normalisation raises an error. */
  predicate ValidTarget(t: Target) {
    Present(t.dimensionValueId) + Present(t.unitId) + Present(t.resourceRef) == 1
  }

  function Or(a: string, b: string): string {
    if a != "" then a else b
  }

  // ----- Identities -----

  /** `parts.join("::")`. */
  function Join(parts: seq<string>): string {
    if parts == [] then ""
    else if |parts| == 1 then parts[0]
    else parts[0] + "::" + Join(parts[1..])
  }

  /** `s.split(":")`. */
  function Split(s: string): (r: seq<string>)
    ensures r != []
  {
    if s == "" then [""]
    else
      var rest := Split(s[1..]);
      if s[0] == ':' then [""] + rest else [[s[0]] + rest[0]] + rest[1..]
  }

  function Parts(organization: string, subject: string, role: string, capability: string, sourceType: string,
                 sourceId: string,
                 ruleId: string, ruleVersion: string, t: Target): (r: seq<string>)
    ensures |r| == 11
  {
    [organization, subject, role, capability, sourceType, sourceId, ruleId, ruleVersion, t.kind,
     Or(t.dimensionKey, t.relationshipKey), Or(t.dimensionValueId, Or(t.unitId, t.resourceRef))]
  }

  function CandidateParts(c: Candidate): seq<string> {
    Parts(c.organization, c.subject, c.role, c.capability, c.source.kind, c.source.id, c.ruleId, c.ruleVersion,
          c.target)
  }

  function SourceVersion(version: string, ruleId: string, ruleVersion: string): string {
    version + ":" + ruleId + ":" + ruleVersion
  }

  function RuleIdOf(sourceVersion: string): string {
    var pieces := Split(sourceVersion);
    if |pieces| > 1 then pieces[1] else ""
  }

  function RuleVersionOf(sourceVersion: string): string {
    var pieces := Split(sourceVersion);
    Or(if |pieces| > 2 then pieces[2] else "", "1")
  }

  function AssignmentParts(a: Assignment): seq<string> {
    Parts(a.organization, a.user, a.role, a.capability, a.sourceType, a.sourceRef, RuleIdOf(a.sourceVersion),
          RuleVersionOf(a.sourceVersion), a.target)
  }

  /** `assignmentInputFromCandidate`, as far as identity goes. */
  function Projected(c: Candidate): Assignment {
    Assignment(c.organization, c.subject, c.role, c.capability, c.target, c.source.kind, c.source.id,
               SourceVersion(c.source.version, c.ruleId, c.ruleVersion))
  }

  predicate NoColon(s: string) {
    ':' !in s
  }

  lemma {:induction false} SplitAtColon(a: string, rest: string)
    requires NoColon(a)
    ensures Split(a + ":" + rest) == [a] + Split(rest)
    decreases |a|
  {
    var s := a + ":" + rest;
    if a == "" {
      assert s[1..] == rest;
    } else {
      assert s[1..] == a[1..] + ":" + rest;
      SplitAtColon(a[1..], rest);
      assert a == [a[0]] + a[1..];
    }
  }

  lemma {:induction false} SplitWithoutColon(a: string)
    requires NoColon(a)
    ensures Split(a) == [a]
    decreases |a|
  {
    if a != "" {
      SplitWithoutColon(a[1..]);
      assert a == [a[0]] + a[1..];
    } else {
      assert a == [];
    }
  }

  lemma {:induction false} PiecesHaveNoColon(s: string, i: nat)
    requires i < |Split(s)|
    ensures NoColon(Split(s)[i])
    decreases |s|
  {
    if s != "" {
      var rest := Split(s[1..]);
      if s[0] == ':' {
        if i > 0 {
          PiecesHaveNoColon(s[1..], i - 1);
        }
      } else {
        PiecesHaveNoColon(s[1..], i);
      }
    }
  }

  /** Reading back the rule and its version works, for a source version without a colon, if and only if neither
      of them contains one. */
  lemma RuleIsReadBackUnlessColon(version: string, ruleId: string, ruleVersion: string)
    requires NoColon(version) && ruleVersion != ""
    ensures RuleIdOf(SourceVersion(version, ruleId, ruleVersion)) == ruleId &&
            RuleVersionOf(SourceVersion(version, ruleId, ruleVersion)) == ruleVersion
            <==> NoColon(ruleId) && NoColon(ruleVersion)
  {
    var rest := ruleId + ":" + ruleVersion;
    var s := SourceVersion(version, ruleId, ruleVersion);
    assert s == version + ":" + rest;
    SplitAtColon(version, rest);
    if NoColon(ruleId) {
      SplitAtColon(ruleId, ruleVersion);
      if NoColon(ruleVersion) {
        SplitWithoutColon(ruleVersion);
      } else {
        PiecesHaveNoColon(ruleVersion, 0);
      }
    } else {
      PiecesHaveNoColon(rest, 0);
    }
  }

  lemma FourPieces(a: string, b: string, c: string, d: string)
    ensures SourceVersion(a + ":" + b, c, d) == a + ":" + (b + ":" + (c + ":" + d))
  {
  }

  /** A colon in the source version itself moves everything by one piece: the rule read back is then the rest of
      that version, so that the two agree only if they happen to be equal. */
  lemma ColonInVersionMovesTheRule(before: string, after: string, ruleId: string, ruleVersion: string)
    requires NoColon(before) && NoColon(after)
    ensures RuleIdOf(SourceVersion(before + ":" + after, ruleId, ruleVersion)) == after
  {
    FourPieces(before, after, ruleId, ruleVersion);
    SplitAtColon(before, after + ":" + (ruleId + ":" + ruleVersion));
    SplitAtColon(after, ruleId + ":" + ruleVersion);
  }

  /** So an assignment carries the identity of its candidate when nothing in its source version has a colon. */
  lemma ProjectionKeepsIdentity(c: Candidate)
    requires NoColon(c.source.version) && NoColon(c.ruleId) && NoColon(c.ruleVersion) && c.ruleVersion != ""
    ensures AssignmentParts(Projected(c)) == CandidateParts(c)
    ensures Join(AssignmentParts(Projected(c))) == Join(CandidateParts(c))
  {
    RuleIsReadBackUnlessColon(c.source.version, c.ruleId, c.ruleVersion);
  }

  // ----- When the joined string tells components apart -----

  predicate SeparatorAt(s: string, i: nat) {
    i + 1 < |s| && s[i] == ':' && s[i + 1] == ':'
  }

  /** No separator inside, and none that could begin with the last character. */
  predicate Clean(s: string) {
    (forall i: nat | i < |s| :: !SeparatorAt(s, i)) && (s != "" ==> s[|s| - 1] != ':')
  }

  /** Every component but the last; what follows the last separator may be anything. */
  predicate AllClean(parts: seq<string>) {
    forall i | 0 <= i < |parts| - 1 :: Clean(parts[i])
  }

  lemma FirstSeparatorEndsTheComponent(a: string, x: string, b: string, y: string)
    requires Clean(a) && Clean(b) && a + "::" + x == b + "::" + y
    ensures a == b && x == y
  {
    var s := a + "::" + x;
    assert s[|a|] == ':' && s[|a| + 1] == ':' && s[|b|] == ':' && s[|b| + 1] == ':';
    if |a| < |b| {
      NoSeparatorBefore(b, y, |a|);
      assert false;
    }
    if |b| < |a| {
      NoSeparatorBefore(a, x, |b|);
      assert false;
    }
    assert s[..|a|] == a && s[..|b|] == b;
    assert s[|a| + 2..] == x && s[|b| + 2..] == y;
  }

  lemma NoSeparatorBefore(a: string, x: string, i: nat)
    requires Clean(a) && i < |a|
    ensures !SeparatorAt(a + "::" + x, i)
  {
    var s := a + "::" + x;
    assert s[i] == a[i];
    if i + 1 < |a| {
      assert s[i + 1] == a[i + 1];
      assert !SeparatorAt(a, i);
    }
  }

  /** Two lists of the same length with clean components are told apart. */
  lemma {:induction false} CleanPartsAreToldApart(p: seq<string>, q: seq<string>)
    requires |p| == |q| && AllClean(p) && AllClean(q) && Join(p) == Join(q)
    ensures p == q
    decreases |p|
  {
    if |p| > 1 {
      FirstSeparatorEndsTheComponent(p[0], Join(p[1..]), q[0], Join(q[1..]));
      CleanPartsAreToldApart(p[1..], q[1..]);
      assert p == [p[0]] + p[1..] && q == [q[0]] + q[1..];
    }
  }

  /** Component `i` cut at `at`, the cut-off part going to the front of the next one. */
  function Shifted(parts: seq<string>, i: nat, kept: string, moved: string): seq<string>
    requires i + 1 < |parts|
  {
    parts[i := kept][i + 1 := moved + parts[i + 1]]
  }

  lemma {:induction false} ShiftingKeepsTheString(parts: seq<string>, i: nat, kept: string, moved: string)
    requires i + 1 < |parts| && forall next: string :: parts[i] + "::" + next == kept + "::" + (moved + next)
    ensures Join(Shifted(parts, i, kept, moved)) == Join(parts)
    decreases i
  {
    var shifted := Shifted(parts, i, kept, moved);
    if i > 0 {
      ShiftingKeepsTheString(parts[1..], i - 1, kept, moved);
      assert shifted[1..] == Shifted(parts[1..], i - 1, kept, moved);
    } else {
      JoinAfterMoved(parts[1..], moved);
      assert shifted[1..] == parts[1..][0 := moved + parts[1]];
      assert parts[0] + "::" + Join(parts[1..]) == kept + "::" + (moved + Join(parts[1..]));
    }
  }

  lemma JoinAfterMoved(parts: seq<string>, moved: string)
    requires parts != []
    ensures Join(parts[0 := moved + parts[0]]) == moved + Join(parts)
  {
    if |parts| > 1 {
      assert parts[0 := moved + parts[0]][1..] == parts[1..];
      assert (moved + parts[0]) + "::" + Join(parts[1..]) == moved + (parts[0] + "::" + Join(parts[1..]));
    }
  }

  /** And every list with a component that is not clean is mistaken for another one. */
  lemma UncleanPartsCollide(parts: seq<string>) returns (other: seq<string>)
    requires !AllClean(parts)
    ensures |other| == |parts| && other != parts && Join(other) == Join(parts)
  {
    var i :| 0 <= i < |parts| - 1 && !Clean(parts[i]);
    var c := parts[i];
    if c != "" && c[|c| - 1] == ':' {
      var kept := c[..|c| - 1];
      forall next: string
        ensures c + "::" + next == kept + "::" + (":" + next)
      {
        assert c == kept + ":";
      }
      other := Shifted(parts, i, kept, ":");
      ShiftingKeepsTheString(parts, i, kept, ":");
    } else {
      var at: nat :| at < |c| && SeparatorAt(c, at);
      var kept, moved := c[..at], c[at + 2..] + "::";
      forall next: string
        ensures c + "::" + next == kept + "::" + (moved + next)
      {
        assert c == kept + "::" + c[at + 2..];
      }
      other := Shifted(parts, i, kept, moved);
      ShiftingKeepsTheString(parts, i, kept, moved);
    }
    assert |other[i]| < |parts[i]|;
  }

  /** Components free of the separator are not enough: one may end and the next begin with half of it. */
  lemma FreeOfSeparatorIsNotEnough()
    ensures ["a:", "b"] != ["a", ":b"] && Join(["a:", "b"]) == Join(["a", ":b"])
    ensures forall i: nat ::
              !SeparatorAt("a:", i) && !SeparatorAt("b", i) && !SeparatorAt("a", i) && !SeparatorAt(":b", i)
  {
    assert ["a:", "b"][0] != ["a", ":b"][0];
    assert ["a:", "b"][1..] == ["b"] && ["a", ":b"][1..] == [":b"];
    assert Join(["a:", "b"]) == "a:" + "::" + "b" == "a:::b";
    assert Join(["a", ":b"]) == "a" + "::" + ":b" == "a:::b";
  }

  // ----- Validation -----

  datatype Reason = WrongTenant | TranslationMissing | RoleContextMissing | RoleRevoked | SourceInactive | SourceExpired
                  | SourceRejected | TargetInvalid

  /** The read-only ports, each answering about one candidate. */
  datatype Ports = Ports(ruleExists: string -> bool, rolePathActive: Candidate -> bool, sourceValid: Candidate -> bool,
                         dimensionPublished: Candidate -> bool)

  predicate NowActive(s: Source, now: int) {
    s.active && s.validFrom <= now && (s.validUntil.None? || now < s.validUntil.value)
  }

  function Validate(c: Candidate, organization: string, ports: Ports, now: int): Option<Reason> {
    if c.organization != organization then Some(WrongTenant)
    else if !ports.ruleExists(c.ruleId) then Some(TranslationMissing)
    else if c.role == "" then Some(RoleContextMissing)
    else if !ports.rolePathActive(c) then Some(RoleRevoked)
    else if !NowActive(c.source, now) then Some(if c.source.active then SourceExpired else SourceInactive)
    else if !ports.sourceValid(c) then Some(SourceRejected)
    else if c.target.kind == "dimension" && !ports.dimensionPublished(c) then Some(TargetInvalid)
    else None
  }
}
