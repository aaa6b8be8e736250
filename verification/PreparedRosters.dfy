/** Exactly which rosters may be prepared (campaign.py, validate_preparation). */
module PreparedRosters {
  import opened Text
  import opened Rosters

  // The three text shapes

  const DIGITS := "0123456789"
  const SMALL := "abcdefghijklmnopqrstuvwxyz"
  const CAPITAL := "ABCDEFGHIJKLMNOPQRSTUVWXYZ"
  const HEX := "abcdef"
  const CAPITAL_HEX := "ABCDEF"

  predicate AllAmong(s: string, chars: string) {
    forall i | 0 <= i < |s| :: s[i] in chars
  }

  lemma DigitsExactly(c: char)
    ensures '0' <= c <= '9' <==> c in DIGITS
  {
    assert forall i | 0 <= i < 10 :: DIGITS[i] as int == '0' as int + i;
    if '0' <= c <= '9' {
      assert DIGITS[c as int - '0' as int] == c;
    }
  }

  lemma SmallExactly(c: char)
    ensures 'a' <= c <= 'z' <==> c in SMALL
    ensures 'a' <= c <= 'f' <==> c in HEX
  {
    assert forall i | 0 <= i < 26 :: SMALL[i] as int == 'a' as int + i;
    if 'a' <= c <= 'z' {
      assert SMALL[c as int - 'a' as int] == c;
    }
    assert forall i | 0 <= i < 6 :: HEX[i] as int == 'a' as int + i;
    if 'a' <= c <= 'f' {
      assert HEX[c as int - 'a' as int] == c;
    }
  }

  lemma CapitalExactly(c: char)
    ensures 'A' <= c <= 'Z' <==> c in CAPITAL
    ensures 'A' <= c <= 'F' <==> c in CAPITAL_HEX
  {
    assert forall i | 0 <= i < 26 :: CAPITAL[i] as int == 'A' as int + i;
    if 'A' <= c <= 'Z' {
      assert CAPITAL[c as int - 'A' as int] == c;
    }
    assert forall i | 0 <= i < 6 :: CAPITAL_HEX[i] as int == 'A' as int + i;
    if 'A' <= c <= 'F' {
      assert CAPITAL_HEX[c as int - 'A' as int] == c;
    }
  }

  /** A public identifier: a letter or digit, then letters, digits and seven other signs. */
  predicate PublicName(s: string) {
    s != "" && s[0] in DIGITS + SMALL + CAPITAL && AllAmong(s, DIGITS + SMALL + CAPITAL + "._/@:+-")
  }

  /** A digest: the algorithm's name and 64 lower-case hexadecimal digits. */
  predicate DigestText(s: string) {
    |s| == |"sha256:"| + 64 && "sha256:" <= s && AllAmong(s[|"sha256:"|..], DIGITS + HEX)
  }

  predicate CommitText(s: string) {
    |s| == 40 && AllAmong(s, DIGITS + HEX + CAPITAL_HEX)
  }

  lemma AlphanumericExactly(c: char)
    ensures IsAlphanumeric(c) <==> c in DIGITS + SMALL + CAPITAL
    ensures IsHexDigit(c) <==> c in DIGITS + HEX
    ensures IsHexDigit(c) || 'A' <= c <= 'F' <==> c in DIGITS + HEX + CAPITAL_HEX
  {
    hide DIGITS, SMALL, CAPITAL, HEX, CAPITAL_HEX;
    DigitsExactly(c);
    SmallExactly(c);
    CapitalExactly(c);
  }

  lemma ShapesExactly(s: string)
    ensures IsIdentifier(s) <==> PublicName(s)
    ensures IsDigest(s) <==> DigestText(s)
    ensures IsCommit(s) <==> CommitText(s)
  {
    hide DIGITS, SMALL, CAPITAL, HEX, CAPITAL_HEX, IsAlphanumeric, IsHexDigit;
    forall c
      ensures IsAlphanumeric(c) <==> c in DIGITS + SMALL + CAPITAL
      ensures IsAlphanumeric(c) || c in "._/@:+-" <==> c in DIGITS + SMALL + CAPITAL + "._/@:+-"
      ensures IsHexDigit(c) <==> c in DIGITS + HEX
      ensures IsHexDigit(c) || 'A' <= c <= 'F' <==> c in DIGITS + HEX + CAPITAL_HEX
    {
      AlphanumericExactly(c);
    }
    if |s| == 71 {
      assert |"sha256:"| == 7;
      assert forall i | 7 <= i < 71 :: s[i] == s[7..][i - 7];
      assert forall i | 0 <= i < 64 :: s[7..][i] == s[i + 7];
    }
  }

  // The roster

  predicate Planned(a: Assignment) {
    && PublicName(a.runId) && PublicName(a.pairId) && PublicName(a.blockId) && PublicName(a.model)
    && PublicName(a.incident) && PublicName(a.seed) && PublicName(a.configurationId) && PublicName(a.verifierId)
    && DigestText(a.verifierDigest)
    && (a.arm == Native || a.arm == Architecture || a.arm == Radius)
  }

  predicate Declared(c: Campaign) {
    && PublicName(c.id) && PublicName(c.benchmarkCommit)
    && match c.phase
       case Smoke => PublicName(c.analysisPlan)
       case Pilot => PublicName(c.analysisPlan)
       case ScoredPhase => CommitText(c.analysisPlan)
       case UnknownPhase(_) => false
  }

  /** Two rows of one pair are the same assignment but for the run and the treatment. */
  predicate SameBut(a: Assignment, b: Assignment) {
    a.arm != b.arm && a == b.(runId := a.runId, arm := a.arm)
  }

  lemma RowsExactly(a: Assignment)
    ensures ValidRow(a) <==> Planned(a)
  {
    hide IsIdentifier, IsDigest, PublicName, DigestText;
    forall s
      ensures IsIdentifier(s) <==> PublicName(s)
      ensures IsDigest(s) <==> DigestText(s)
    {
      ShapesExactly(s);
    }
  }

  lemma CampaignExactly(c: Campaign)
    ensures ValidCampaign(c) <==> Declared(c)
  {
    hide IsIdentifier, IsCommit, PublicName, CommitText;
    forall s
      ensures IsIdentifier(s) <==> PublicName(s)
      ensures IsCommit(s) <==> CommitText(s)
    {
      ShapesExactly(s);
    }
    CommitPublic(c.analysisPlan);
  }

  /** A commit is a public name. */
  lemma CommitPublic(s: string)
    ensures CommitText(s) ==> PublicName(s)
  {
    hide DIGITS, SMALL, CAPITAL, HEX, CAPITAL_HEX;
    forall c
      ensures c in HEX ==> c in SMALL
      ensures c in CAPITAL_HEX ==> c in CAPITAL
    {
      SmallExactly(c);
      CapitalExactly(c);
    }
    if CommitText(s) {
      assert s[0] in DIGITS + HEX + CAPITAL_HEX;
    }
  }

  ghost predicate RunsDiffer(rows: seq<Assignment>) {
    forall i, j | 0 <= i < |rows| && 0 <= j < |rows| && rows[i].runId == rows[j].runId :: i == j
  }

  ghost predicate PairsMatch(rows: seq<Assignment>) {
    forall i, j | 0 <= i < |rows| && 0 <= j < |rows| && rows[i].pairId == rows[j].pairId ::
      i == j || SameBut(rows[i], rows[j])
  }

  predicate Takes(rows: seq<Assignment>, j: int, pair: string, arm: Arm) {
    0 <= j < |rows| && rows[j].pairId == pair && rows[j].arm == arm
  }

  ghost predicate AllTaken(rows: seq<Assignment>, pair: string) {
    && (exists j :: Takes(rows, j, pair, Native))
    && (exists j :: Takes(rows, j, pair, Architecture))
    && (exists j :: Takes(rows, j, pair, Radius))
  }

  ghost predicate ArmsTaken(rows: seq<Assignment>) {
    forall i | 0 <= i < |rows| :: AllTaken(rows, rows[i].pairId)
  }

  /** A roster may be prepared exactly when its campaign and its rows are well formed,
      no run is planned twice, rows of a pair are the same assignment but for the run
      and the treatment, and every pair has all three treatments. */
  lemma PreparedExactly(spec: Spec)
    ensures ValidSpec(spec) <==>
      && spec.schemaVersion == "radius-campaign-v1" && Declared(spec.campaign)
      && |spec.assignments| > 0 && (forall i | 0 <= i < |spec.assignments| :: Planned(spec.assignments[i]))
      && RunsDiffer(spec.assignments) && PairsMatch(spec.assignments) && ArmsTaken(spec.assignments)
  {
    hide ValidRow, Planned, Declared, ValidCampaign, UniqueRuns, PairsConsistent, ArmsComplete, RunsDiffer, PairsMatch,
         ArmsTaken;
    var rows := spec.assignments;
    CampaignExactly(spec.campaign);
    forall a
      ensures ValidRow(a) <==> Planned(a)
    {
      RowsExactly(a);
    }
    RunsExactly(rows);
    PairsExactly(rows);
    ArmsExactly(rows);
    assert forall i | 0 <= i < |rows| :: rows[i] in rows;
  }

  lemma RunsExactly(rows: seq<Assignment>)
    ensures UniqueRuns(rows) <==> RunsDiffer(rows)
  {
  }

  lemma PairsExactly(rows: seq<Assignment>)
    ensures PairsConsistent(rows) <==> PairsMatch(rows)
  {
  }

  lemma ArmExactly(rows: seq<Assignment>, pair: string, arm: Arm)
    ensures HasArm(rows, pair, arm) <==> exists j :: Takes(rows, j, pair, arm)
  {
    if HasArm(rows, pair, arm) {
      var r :| r in rows && r.pairId == pair && r.arm == arm;
      var j :| 0 <= j < |rows| && rows[j] == r;
      assert Takes(rows, j, pair, arm);
    }
  }

  lemma AllArmsExactly(rows: seq<Assignment>, pair: string)
    ensures AllArms(rows, pair) <==> AllTaken(rows, pair)
  {
    hide HasArm, Takes;
    ArmExactly(rows, pair, Native);
    ArmExactly(rows, pair, Architecture);
    ArmExactly(rows, pair, Radius);
  }

  lemma ArmsExactly(rows: seq<Assignment>)
    ensures ArmsComplete(rows) <==> ArmsTaken(rows)
  {
    hide AllArms, AllTaken;
    forall pair
      ensures AllArms(rows, pair) <==> AllTaken(rows, pair)
    {
      AllArmsExactly(rows, pair);
    }
    assert forall i | 0 <= i < |rows| :: rows[i] in rows;
  }
}
