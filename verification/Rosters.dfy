/** The prepared roster of a campaign (campaign.py, validate_preparation). */
module Rosters {
  import opened Results
  import opened Text

  datatype Arm = Native | Architecture | Radius | UnknownArm(name: string)

  datatype Phase = Smoke | Pilot | ScoredPhase | UnknownPhase(name: string)

  datatype Assignment = Assignment(
    runId: string,
    pairId: string,
    blockId: string,
    arm: Arm,
    model: string,
    incident: string,
    seed: string,
    configurationId: string,
    expectedFault: bool,
    verifierId: string,
    verifierDigest: string)

  datatype Campaign = Campaign(id: string, phase: Phase, benchmarkCommit: string, analysisPlan: string)

  datatype Spec = Spec(schemaVersion: string, campaign: Campaign, assignments: seq<Assignment>)

  predicate IsHexDigit(c: char) {
    '0' <= c <= '9' || 'a' <= c <= 'f'
  }

  /** `sha256:` and 64 lower-case hexadecimal digits. */
  predicate IsDigest(s: string) {
    |s| == 71 && s[..7] == "sha256:" && forall i | 7 <= i < 71 :: IsHexDigit(s[i])
  }

  predicate IsCommit(s: string) {
    |s| == 40 && forall i | 0 <= i < 40 :: IsHexDigit(s[i]) || 'A' <= s[i] <= 'F'
  }

  predicate ValidRow(a: Assignment) {
    && IsIdentifier(a.runId) && IsIdentifier(a.pairId) && IsIdentifier(a.blockId)
    && IsIdentifier(a.model) && IsIdentifier(a.incident) && IsIdentifier(a.seed)
    && IsIdentifier(a.configurationId) && IsIdentifier(a.verifierId)
    && IsDigest(a.verifierDigest)
    && !a.arm.UnknownArm?
  }

  predicate ValidCampaign(c: Campaign) {
    && IsIdentifier(c.id) && IsIdentifier(c.benchmarkCommit) && IsIdentifier(c.analysisPlan)
    && !c.phase.UnknownPhase?
    && (c.phase == ScoredPhase ==> IsCommit(c.analysisPlan))
  }

  /** Members of a matched set agree on every input except the treatment. */
  predicate Matched(a: Assignment, b: Assignment) {
    && a.blockId == b.blockId && a.model == b.model && a.incident == b.incident && a.seed == b.seed
    && a.configurationId == b.configurationId && a.expectedFault == b.expectedFault
    && a.verifierId == b.verifierId && a.verifierDigest == b.verifierDigest
  }

  ghost predicate UniqueRuns(rows: seq<Assignment>) {
    forall i, j | 0 <= i < j < |rows| :: rows[i].runId != rows[j].runId
  }

  /** Two rows of one pair take different arms and are otherwise matched. */
  ghost predicate PairsConsistent(rows: seq<Assignment>) {
    forall i, j | 0 <= i < j < |rows| && rows[i].pairId == rows[j].pairId ::
      rows[i].arm != rows[j].arm && Matched(rows[i], rows[j])
  }

  ghost predicate HasArm(rows: seq<Assignment>, pair: string, arm: Arm) {
    exists r | r in rows :: r.pairId == pair && r.arm == arm
  }

  ghost predicate AllArms(rows: seq<Assignment>, pair: string) {
    HasArm(rows, pair, Native) && HasArm(rows, pair, Architecture) && HasArm(rows, pair, Radius)
  }

  /** Every pair present declares all three arms. */
  ghost predicate ArmsComplete(rows: seq<Assignment>) {
    forall r | r in rows :: AllArms(rows, r.pairId)
  }

  ghost predicate ValidSpec(spec: Spec) {
    && spec.schemaVersion == "radius-campaign-v1"
    && ValidCampaign(spec.campaign)
    && spec.assignments != []
    && (forall r | r in spec.assignments :: ValidRow(r))
    && UniqueRuns(spec.assignments)
    && PairsConsistent(spec.assignments)
    && ArmsComplete(spec.assignments)
  }

  /** The rows of one pair, in roster order. */
  function Peers(rows: seq<Assignment>, pair: string): seq<Assignment> {
    if rows == [] then [] else
      var n := |rows| - 1;
      Peers(rows[..n], pair) + if rows[n].pairId == pair then [rows[n]] else []
  }

  lemma {:induction false} PeersMembers(rows: seq<Assignment>, pair: string)
    ensures forall a :: a in Peers(rows, pair) <==> a in rows && a.pairId == pair
  {
    if rows != [] {
      var n := |rows| - 1;
      PeersMembers(rows[..n], pair);
      assert rows == rows[..n] + [rows[n]];
    }
  }

  function RunIds(rows: seq<Assignment>): set<string> {
    set r | r in rows :: r.runId
  }

  function PairIds(rows: seq<Assignment>): set<string> {
    set r | r in rows :: r.pairId
  }

  ghost predicate Consistent(rows: seq<Assignment>) {
    && (forall r | r in rows :: ValidRow(r))
    && UniqueRuns(rows)
    && PairsConsistent(rows)
  }

  ghost predicate DistinctArms(peers: seq<Assignment>) {
    && (forall a | a in peers :: !a.arm.UnknownArm?)
    && forall i, j | 0 <= i < j < |peers| :: peers[i].arm != peers[j].arm
  }

  lemma {:induction false} PeersDistinct(rows: seq<Assignment>, pair: string)
    requires Consistent(rows)
    ensures DistinctArms(Peers(rows, pair))
  {
    hide Matched;
    if rows != [] {
      var n := |rows| - 1;
      var before := rows[..n];
      assert forall i | 0 <= i < n :: rows[i] in rows && before[i] == rows[i];
      PeersDistinct(before, pair);
      if rows[n].pairId == pair {
        NewArm(rows, pair);
      }
    }
  }

  lemma NewArm(rows: seq<Assignment>, pair: string)
    requires Consistent(rows) && rows != [] && rows[|rows| - 1].pairId == pair
    ensures !rows[|rows| - 1].arm.UnknownArm?
    ensures forall a | a in Peers(rows[..|rows| - 1], pair) :: a.arm != rows[|rows| - 1].arm
  {
    hide Matched;
    var n := |rows| - 1;
    assert rows[n] in rows;
    PeersMembers(rows[..n], pair);
    forall a | a in Peers(rows[..n], pair)
      ensures a.arm != rows[n].arm
    {
      var k :| 0 <= k < n && rows[..n][k] == a;
    }
  }

  predicate ArmAmong(peers: seq<Assignment>, arm: Arm) {
    exists a | a in peers :: a.arm == arm
  }

  /** Pigeonhole over the three arms. */
  lemma ThreeArms(peers: seq<Assignment>)
    requires DistinctArms(peers)
    ensures |peers| <= 3
    ensures |peers| == 3 <==> ArmAmong(peers, Native) && ArmAmong(peers, Architecture) && ArmAmong(peers, Radius)
  {
    var arms := set a | a in peers :: a.arm;
    ArmCount(peers);
    var all := {Native, Architecture, Radius};
    assert arms <= all && |all| == 3;
    SubsetCount(arms, all);
    assert forall arm :: arm in arms <==> ArmAmong(peers, arm);
  }

  lemma {:induction false} ArmCount(peers: seq<Assignment>)
    requires forall i, j | 0 <= i < j < |peers| :: peers[i].arm != peers[j].arm
    ensures |set a | a in peers :: a.arm| == |peers|
  {
    if peers != [] {
      var n := |peers| - 1;
      ArmCount(peers[..n]);
      assert peers == peers[..n] + [peers[n]];
      assert (set a | a in peers :: a.arm) == (set a | a in peers[..n] :: a.arm) + {peers[n].arm};
    }
  }

  lemma SubsetCount<T>(a: set<T>, b: set<T>)
    requires a <= b
    ensures |a| <= |b|
    ensures |a| == |b| <==> a == b
  {
    var rest := b - a;
    assert b == a + rest;
    assert |b| == |a| + |rest|;
  }

  /** In a consistent roster a pair declares all three arms exactly when it has three rows. */
  lemma CompletePair(rows: seq<Assignment>, pair: string)
    requires Consistent(rows)
    ensures |Peers(rows, pair)| == 3 <==> AllArms(rows, pair)
  {
    PeersDistinct(rows, pair);
    ThreeArms(Peers(rows, pair));
    PeersMembers(rows, pair);
    assert forall arm :: HasArm(rows, pair, arm) <==> ArmAmong(Peers(rows, pair), arm);
  }

  /** What the scan has gathered from the rows so far. */
  ghost predicate Scanned(rows: seq<Assignment>, ids: set<string>, pairs: map<string, seq<Assignment>>) {
    && Consistent(rows)
    && ids == RunIds(rows)
    && pairs.Keys == PairIds(rows)
    && forall p | p in pairs :: pairs[p] == Peers(rows, p)
  }

  /** The pass over the rows as written: it fills the ids and the pairs. */
  method ScanRows(rows: seq<Assignment>) returns (r: Result<map<string, seq<Assignment>>>)
    ensures r.Ok? <==> Consistent(rows)
    ensures r.Ok? ==> r.value.Keys == PairIds(rows) && forall p | p in r.value :: r.value[p] == Peers(rows, p)
  {
    var ids: set<string> := {};
    var pairs: map<string, seq<Assignment>> := map[];
    for i := 0 to |rows|
      invariant Scanned(rows[..i], ids, pairs)
    {
      hide Consistent, Peers, ValidRow, Matched, PairIds, RunIds;
      var row := rows[i];
      assert rows[..i + 1] == rows[..i] + [row];
      var peers := if row.pairId in pairs then pairs[row.pairId] else [];
      PeersOrNone(rows[..i], row.pairId, peers);
      RowRefused(rows, i, peers);
      if !ValidRow(row) || row.runId in ids || ArmAmong(peers, row.arm)
         || (peers != [] && !Matched(row, peers[0])) {
        return Err;
      }
      ScanStep(rows[..i], row, ids, pairs, peers);
      ids := ids + {row.runId};
      pairs := pairs[row.pairId := peers + [row]];
    }
    assert rows[..|rows|] == rows;
    return Ok(pairs);
  }

  method ValidatePreparation(spec: Spec) returns (valid: bool)
    ensures valid <==> ValidSpec(spec)
  {
    var rows := spec.assignments;
    if spec.schemaVersion != "radius-campaign-v1" || !ValidCampaign(spec.campaign) || rows == [] {
      return false;
    }
    var pairs := ScanRows(rows);
    if pairs.Err? {
      return false;
    }
    CompletePairs(rows);
    return forall p | p in pairs.value :: |pairs.value[p]| == 3;
  }

  lemma CompletePairs(rows: seq<Assignment>)
    requires Consistent(rows)
    ensures ArmsComplete(rows) <==> forall p | p in PairIds(rows) :: |Peers(rows, p)| == 3
  {
    forall p
      ensures |Peers(rows, p)| == 3 <==> AllArms(rows, p)
    {
      CompletePair(rows, p);
    }
    assert forall r | r in rows :: r.pairId in PairIds(rows);
  }

  lemma PeersOrNone(rows: seq<Assignment>, pair: string, peers: seq<Assignment>)
    requires pair in PairIds(rows) ==> peers == Peers(rows, pair)
    requires pair !in PairIds(rows) ==> peers == []
    ensures peers == Peers(rows, pair)
  {
  }

  /** A row that clashes with an earlier one makes the whole roster invalid. */
  lemma RowRefused(rows: seq<Assignment>, i: nat, peers: seq<Assignment>)
    requires i < |rows| && peers == Peers(rows[..i], rows[i].pairId)
    ensures Consistent(rows) ==>
      && ValidRow(rows[i])
      && rows[i].runId !in RunIds(rows[..i])
      && (forall p | p in peers :: p.arm != rows[i].arm && Matched(p, rows[i]))
  {
    PeersMembers(rows[..i], rows[i].pairId);
    if Consistent(rows) {
      assert rows[i] in rows;
      forall p | p in rows[..i]
        ensures p.runId != rows[i].runId
        ensures p.pairId == rows[i].pairId ==> p.arm != rows[i].arm && Matched(p, rows[i])
      {
        var k :| 0 <= k < i && rows[..i][k] == p;
        assert rows[k] == p;
      }
    }
  }

  lemma RowAdded(before: seq<Assignment>, row: Assignment, peers: seq<Assignment>)
    requires Consistent(before) && peers == Peers(before, row.pairId)
    requires ValidRow(row) && row.runId !in RunIds(before)
    requires !ArmAmong(peers, row.arm)
    requires peers == [] || Matched(row, peers[0])
    ensures Consistent(before + [row])
  {
    hide ValidRow;
    var rows := before + [row];
    PeersMembers(before, row.pairId);
    forall i | 0 <= i < |before|
      ensures rows[i].runId != row.runId
      ensures rows[i].pairId == row.pairId ==> rows[i].arm != row.arm && Matched(rows[i], row)
    {
      assert rows[i] in before;
      if rows[i].pairId == row.pairId {
        assert rows[i] in peers;
        assert peers[0] in before;
        PairwiseMatched(before, rows[i], peers[0]);
      }
    }
  }

  lemma ScanStep(before: seq<Assignment>, row: Assignment, ids: set<string>,
                 pairs: map<string, seq<Assignment>>, peers: seq<Assignment>)
    requires Scanned(before, ids, pairs) && peers == Peers(before, row.pairId)
    requires ValidRow(row) && row.runId !in ids
    requires !ArmAmong(peers, row.arm)
    requires peers == [] || Matched(row, peers[0])
    ensures Scanned(before + [row], ids + {row.runId}, pairs[row.pairId := peers + [row]])
  {
    RowAdded(before, row, peers);
    PairsUpdated(before, row, pairs, peers);
    RunIdsAdded(before, row);
  }

  lemma RunIdsAdded(before: seq<Assignment>, row: Assignment)
    ensures RunIds(before + [row]) == RunIds(before) + {row.runId}
  {
  }

  lemma PairsUpdated(before: seq<Assignment>, row: Assignment, pairs: map<string, seq<Assignment>>,
                     peers: seq<Assignment>)
    requires pairs.Keys == PairIds(before) && peers == Peers(before, row.pairId)
    requires forall p | p in pairs :: pairs[p] == Peers(before, p)
    ensures var pairs' := pairs[row.pairId := peers + [row]];
      && pairs'.Keys == PairIds(before + [row])
      && forall p | p in pairs' :: pairs'[p] == Peers(before + [row], p)
  {
  }

  lemma PairwiseMatched(rows: seq<Assignment>, a: Assignment, b: Assignment)
    requires PairsConsistent(rows) && a in rows && b in rows && a.pairId == b.pairId
    ensures Matched(a, b)
  {
  }

  lemma PeersAdded(before: seq<Assignment>, row: Assignment)
    ensures forall p :: Peers(before + [row], p) == Peers(before, p) + (if row.pairId == p then [row] else [])
    ensures PairIds(before + [row]) == PairIds(before) + {row.pairId}
  {
    assert (before + [row])[..|before|] == before;
  }

  // Planned assignments are three for each pair

  function Others(rows: seq<Assignment>, pair: string): seq<Assignment> {
    if rows == [] then [] else
      var n := |rows| - 1;
      Others(rows[..n], pair) + if rows[n].pairId == pair then [] else [rows[n]]
  }

  lemma {:induction false} OthersMembers(rows: seq<Assignment>, pair: string)
    ensures forall a :: a in Others(rows, pair) <==> a in rows && a.pairId != pair
  {
    if rows != [] {
      var n := |rows| - 1;
      OthersMembers(rows[..n], pair);
      assert rows == rows[..n] + [rows[n]];
    }
  }

  lemma {:induction false} Partition(rows: seq<Assignment>, pair: string)
    ensures |rows| == |Peers(rows, pair)| + |Others(rows, pair)|
  {
    if rows != [] {
      Partition(rows[..|rows| - 1], pair);
    }
  }

  lemma {:induction false} OtherPeers(rows: seq<Assignment>, pair: string, q: string)
    requires q != pair
    ensures Peers(Others(rows, pair), q) == Peers(rows, q)
  {
    if rows != [] {
      var n := |rows| - 1;
      var others := Others(rows[..n], pair);
      OtherPeers(rows[..n], pair, q);
      if rows[n].pairId == pair {
        assert Others(rows, pair) == others && Peers(rows, q) == Peers(rows[..n], q);
      } else {
        PeersAdded(others, rows[n]);
      }
    }
  }

  lemma {:induction false} ThreeEach(rows: seq<Assignment>)
    requires forall r | r in rows :: |Peers(rows, r.pairId)| == 3
    ensures |rows| == 3 * |PairIds(rows)|
    decreases |rows|
  {
    if rows == [] {
      assert PairIds(rows) == {};
    } else {
      var pair := rows[0].pairId;
      var rest := Others(rows, pair);
      Partition(rows, pair);
      OthersMembers(rows, pair);
      PeersMembers(rows, pair);
      assert rows[0] in rows;
      forall r | r in rest
        ensures |Peers(rest, r.pairId)| == 3
      {
        OtherPeers(rows, pair, r.pairId);
      }
      ThreeEach(rest);
      OtherPairs(rows, pair);
    }
  }

  lemma OtherPairs(rows: seq<Assignment>, pair: string)
    requires pair in PairIds(rows)
    ensures |PairIds(rows)| == |PairIds(Others(rows, pair))| + 1
  {
    OthersMembers(rows, pair);
    assert PairIds(rows) == PairIds(Others(rows, pair)) + {pair};
  }

  /** A valid preparation plans exactly three assignments for every pair. */
  lemma PlannedIsThreePerPair(spec: Spec)
    requires ValidSpec(spec)
    ensures |spec.assignments| == 3 * |PairIds(spec.assignments)|
  {
    forall r | r in spec.assignments
      ensures |Peers(spec.assignments, r.pairId)| == 3
    {
      CompletePair(spec.assignments, r.pairId);
    }
    ThreeEach(spec.assignments);
  }
}
