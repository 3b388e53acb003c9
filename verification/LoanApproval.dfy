/** The loan desks and the mediator that decides who acts next. */
module LoanApproval {
  import opened Amortisation
  import opened LetterCase

  datatype CreditReport = CreditReport(score: int, hasDefaults: bool)

  datatype LoanApplication = LoanApplication(applicant: string, amount: int, term: nat, purpose: string, income: int)

  /** What the builder of applications lets through. */
  predicate Built(a: LoanApplication) {
    a.amount > 0 && 3 <= a.term <= 84 && a.income > 0
  }

  datatype DeskKind = CREDIT | AFFORDABILITY | COMPLIANCE

  datatype DeskEvent =
    | CreditPassed | CreditBorderline | CreditRejected
    | AffordabilityPassed | AffordabilityFailed
    | CompliancePassed | ComplianceManualReview

  datatype LoanStatus = APPROVED | REJECTED | MANUAL_REVIEW

  const SENIOR_OFFICER_AMOUNT := 500_000_000

  const RESTRICTED_PURPOSES := ["crypto", "gambling", "speculation"]

  // ---------- What each desk finds ----------

  predicate PartAt(s: string, part: string, k: nat) {
    k + |part| <= |s| && s[k..k + |part|] == part
  }

  predicate Includes(s: string, part: string) {
    exists k: nat :: k <= |s| && PartAt(s, part, k)
  }

  predicate Restricted(purpose: string) {
    exists p :: p in RESTRICTED_PURPOSES && Includes(Lower(purpose), p)
  }

  /** The instalment takes more than forty percent of the income. */
  predicate Unaffordable(a: LoanApplication)
    requires Built(a)
  {
    MonthlyInstalment(a.amount, a.term) as real / a.income as real > 0.4
  }

  function Finding(desk: DeskKind, a: LoanApplication, report: CreditReport): DeskEvent
    requires Built(a)
  {
    match desk
    case CREDIT =>
      if report.hasDefaults || report.score < 600 then CreditRejected
      else if report.score < 680 then CreditBorderline
      else CreditPassed
    case AFFORDABILITY => if Unaffordable(a) then AffordabilityFailed else AffordabilityPassed
    case COMPLIANCE =>
      if Restricted(a.purpose) || a.amount > SENIOR_OFFICER_AMOUNT then ComplianceManualReview else CompliancePassed
  }

  // ---------- The workflow ----------

  datatype Workflow = Workflow(status: LoanStatus, borderline: bool, log: seq<(DeskKind, DeskEvent)>)

  const NEW_WORKFLOW := Workflow(MANUAL_REVIEW, false, [])

  function StepsLeft(e: DeskEvent): nat {
    match e
    case CreditPassed | CreditBorderline => 5
    case AffordabilityPassed => 3
    case _ => 1
  }

  function DeskSteps(desk: DeskKind): nat {
    match desk case CREDIT => 6 case AFFORDABILITY => 4 case COMPLIANCE => 2
  }

  function Reviewed(w: Workflow, desk: DeskKind, a: LoanApplication, report: CreditReport): Workflow
    requires Built(a)
    decreases DeskSteps(desk)
  {
    Notified(w, desk, Finding(desk, a, report), a, report)
  }

  function Notified(w: Workflow, sender: DeskKind, event: DeskEvent, a: LoanApplication, report: CreditReport): Workflow
    requires Built(a)
    decreases StepsLeft(event)
  {
    var logged := w.(log := w.log + [(sender, event)]);
    match event
    case CreditBorderline => Reviewed(logged.(borderline := true), AFFORDABILITY, a, report)
    case CreditPassed => Reviewed(logged, AFFORDABILITY, a, report)
    case AffordabilityPassed => Reviewed(logged, COMPLIANCE, a, report)
    case CreditRejected => logged.(status := REJECTED)
    case AffordabilityFailed => logged.(status := REJECTED)
    case ComplianceManualReview => logged.(status := MANUAL_REVIEW)
    case CompliancePassed => logged.(status := if w.borderline then MANUAL_REVIEW else APPROVED)
  }

  /** A desk knows only its mediator; the bureau matters to the credit desk alone. */
  class LoanDesk {
    const kind: DeskKind
    const bureau: string -> CreditReport
    var mediator: LoanApprovalMediator?

    constructor (kind: DeskKind, bureau: string -> CreditReport)
      ensures this.kind == kind && this.bureau == bureau && mediator == null
    {
      this.kind, this.bureau, mediator := kind, bureau, null;
    }

    method SetMediator(mediator: LoanApprovalMediator)
      modifies this
      ensures this.mediator == mediator
    {
      this.mediator := mediator;
    }

    method Review(a: LoanApplication)
      requires Built(a) && mediator != null && mediator.Valid() && mediator.application == a
      requires mediator.bureau == bureau
      modifies mediator
      ensures mediator.Valid() && mediator.application == a
      ensures mediator.State() == Reviewed(old(mediator.State()), kind, a, bureau(a.applicant))
      decreases DeskSteps(kind)
    {
      var event;
      match kind {
        case CREDIT =>
          var report := bureau(a.applicant);
          if report.hasDefaults || report.score < 600 {
            event := CreditRejected;
          } else if report.score < 680 {
            event := CreditBorderline;
          } else {
            event := CreditPassed;
          }
        case AFFORDABILITY =>
          var instalment := MonthlyInstalment(a.amount, a.term);
          var ratio := instalment as real / a.income as real;
          event := if ratio > 0.4 then AffordabilityFailed else AffordabilityPassed;
        case COMPLIANCE =>
          if Restricted(a.purpose) {
            event := ComplianceManualReview;
          } else if a.amount > SENIOR_OFFICER_AMOUNT {
            event := ComplianceManualReview;
          } else {
            event := CompliancePassed;
          }
      }
      mediator.Notify(this, event, a);
    }
  }

  class LoanApprovalMediator {
    const credit: LoanDesk
    const affordability: LoanDesk
    const compliance: LoanDesk
    const bureau: string -> CreditReport
    var application: LoanApplication
    var status: LoanStatus
    var borderline: bool
    var log: seq<(DeskKind, DeskEvent)>

    ghost predicate Valid()
      reads this, credit, affordability, compliance
    {
      && credit.kind == CREDIT && affordability.kind == AFFORDABILITY && compliance.kind == COMPLIANCE
      && credit.mediator == affordability.mediator == compliance.mediator == this
      && credit.bureau == affordability.bureau == compliance.bureau == bureau
    }

    function State(): Workflow
      reads this
    {
      Workflow(status, borderline, log)
    }

    constructor (credit: LoanDesk, affordability: LoanDesk, compliance: LoanDesk)
      requires credit.kind == CREDIT && affordability.kind == AFFORDABILITY && compliance.kind == COMPLIANCE
      requires credit.bureau == affordability.bureau == compliance.bureau
      modifies credit, affordability, compliance
      ensures this.credit == credit && this.affordability == affordability && this.compliance == compliance
      ensures Valid() && State() == NEW_WORKFLOW && bureau == credit.bureau
    {
      this.credit, this.affordability, this.compliance := credit, affordability, compliance;
      bureau := credit.bureau;
      status, borderline, log := MANUAL_REVIEW, false, [];
      new;
      credit.SetMediator(this);
      affordability.SetMediator(this);
      compliance.SetMediator(this);
    }

    method Decide(a: LoanApplication) returns (decision: LoanStatus, story: seq<(DeskKind, DeskEvent)>)
      requires Valid() && Built(a)
      modifies this
      ensures Valid()
      ensures State() == Reviewed(old(State()), CREDIT, a, bureau(a.applicant))
      ensures decision == State().status && story == State().log
    {
      application := a;
      credit.Review(a);
      decision, story := status, log;
    }

    method Notify(sender: LoanDesk, event: DeskEvent, a: LoanApplication)
      requires Valid() && application == a && Built(a)
      modifies this
      ensures Valid() && application == a
      ensures State() == Notified(old(State()), sender.kind, event, a, bureau(a.applicant))
      decreases StepsLeft(event)
    {
      log := log + [(sender.kind, event)];
      match event {
        case CreditBorderline =>
          borderline := true;
          affordability.Review(application);
        case CreditPassed => affordability.Review(application);
        case AffordabilityPassed => compliance.Review(application);
        case CreditRejected => status := REJECTED;
        case AffordabilityFailed => status := REJECTED;
        case ComplianceManualReview => status := MANUAL_REVIEW;
        case CompliancePassed => status := if borderline then MANUAL_REVIEW else APPROVED;
      }
    }
  }

  // ---------- What is decided ----------

  function Decision(a: LoanApplication, report: CreditReport): LoanStatus
    requires Built(a)
  {
    Reviewed(NEW_WORKFLOW, CREDIT, a, report).status
  }

  /** Some part of the purpose, in small letters, is one of the three words. */
  ghost predicate Speculative(purpose: string) {
    exists i: nat, j: nat :: i <= j <= |purpose| && Lower(purpose[i..j]) in {"crypto", "gambling", "speculation"}
  }

  lemma RestrictedIsSpeculative(purpose: string)
    ensures Restricted(purpose) <==> Speculative(purpose)
  {
    hide Includes;
    if Speculative(purpose) {
      var i: nat, j: nat :| i <= j <= |purpose| && Lower(purpose[i..j]) in {"crypto", "gambling", "speculation"};
      var p := Lower(purpose[i..j]);
      PartIsIncluded(purpose, i, j);
      assert RESTRICTED_PURPOSES[0] == "crypto" && RESTRICTED_PURPOSES[1] == "gambling" && RESTRICTED_PURPOSES[2] == "speculation";
      assert p in RESTRICTED_PURPOSES;
    }
    if Restricted(purpose) {
      var p :| p in RESTRICTED_PURPOSES && Includes(Lower(purpose), p);
      var i, j := IncludedIsAPart(purpose, p);
      assert p in {"crypto", "gambling", "speculation"};
    }
  }

  lemma PartIsIncluded(s: string, i: nat, j: nat)
    requires i <= j <= |s|
    ensures Includes(Lower(s), Lower(s[i..j]))
  {
    hide Lower;
    assert Lower(s)[i..j] == Lower(s[i..j]);
    assert PartAt(Lower(s), Lower(s[i..j]), i);
  }

  lemma IncludedIsAPart(s: string, part: string) returns (i: nat, j: nat)
    requires Includes(Lower(s), part)
    ensures i <= j <= |s| && Lower(s[i..j]) == part
  {
    i :| i <= |Lower(s)| && PartAt(Lower(s), part, i);
    j := i + |part|;
  }

  lemma UnaffordableIs(a: LoanApplication)
    requires Built(a)
    ensures Unaffordable(a) <==> 10 * MonthlyInstalment(a.amount, a.term) > 4 * a.income
  {
    var x, d := MonthlyInstalment(a.amount, a.term) as real, a.income as real;
    var y := x / d;
    hide MonthlyInstalment;
    assert y * d == x;
    Signs(y - 0.4, d);
    Signs(0.4 - y, d);
    assert (y - 0.4) * d == x - 0.4 * d && (0.4 - y) * d == 0.4 * d - x;
  }

  /** The whole workflow as one table, whatever path the notifications took: the bureau's verdict, an
      instalment above forty percent of the income, a speculative purpose, five million rupees. */
  lemma DecisionTable(a: LoanApplication, report: CreditReport)
    requires Built(a)
    ensures Decision(a, report) == REJECTED <==>
      report.hasDefaults || report.score < 600 || 10 * MonthlyInstalment(a.amount, a.term) > 4 * a.income
    ensures Decision(a, report) == APPROVED <==>
      && !report.hasDefaults && report.score >= 680
      && 10 * MonthlyInstalment(a.amount, a.term) <= 4 * a.income
      && !Speculative(a.purpose) && a.amount <= 500_000_000
  {
    hide Unaffordable, Restricted, Speculative, MonthlyInstalment;
    UnaffordableIs(a);
    RestrictedIsSpeculative(a.purpose);
  }

  /** The log tells each desk's finding once, in order, and stops at the first that settles the case. */
  lemma LogTellsTheStory(w: Workflow, a: LoanApplication, report: CreditReport)
    requires Built(a)
    ensures var first, second, third := Finding(CREDIT, a, report), Finding(AFFORDABILITY, a, report), Finding(COMPLIANCE, a, report);
      Reviewed(w, CREDIT, a, report).log == w.log + [(CREDIT, first)]
        + (if first == CreditRejected then [] else [(AFFORDABILITY, second)])
        + (if first == CreditRejected || second == AffordabilityFailed then [] else [(COMPLIANCE, third)])
  {}

  /** One mediator serves one application: used again, it decides like a new one except that a
      borderline applicant it has seen keeps everybody after from being approved. */
  lemma ReusedMediatorRemembers(w: Workflow, a: LoanApplication, report: CreditReport)
    requires Built(a)
    ensures Reviewed(w, CREDIT, a, report).status ==
      if w.borderline && Decision(a, report) == APPROVED then MANUAL_REVIEW else Decision(a, report)
  {}

  function Rank(s: LoanStatus): nat {
    match s case REJECTED => 0 case MANUAL_REVIEW => 1 case APPROVED => 2
  }

  /** A smaller loan over a longer term, more income and a better record never lead to a worse
      decision, rounding of the instalment included. */
  lemma BetterApplicantsFareNoWorse(a: LoanApplication, report: CreditReport, a': LoanApplication, report': CreditReport)
    requires Built(a) && Built(a') && a'.purpose == a.purpose
    requires a'.amount <= a.amount && a.term <= a'.term && a.income <= a'.income
    requires report.score <= report'.score && (report'.hasDefaults ==> report.hasDefaults)
    ensures Rank(Decision(a, report)) <= Rank(Decision(a', report'))
  {
    hide Speculative, Restricted, Unaffordable, MonthlyInstalment, Decision;
    DecisionTable(a, report);
    DecisionTable(a', report');
    UnaffordableIs(a);
    UnaffordableIs(a');
    AffordableStaysAffordable(a, a');
  }

  lemma AffordableStaysAffordable(a: LoanApplication, a': LoanApplication)
    requires Built(a) && Built(a') && a'.amount <= a.amount && a.term <= a'.term && a.income <= a'.income
    ensures Unaffordable(a') ==> Unaffordable(a)
  {
    InstalmentIsMonotone(a.amount, a.term, a'.amount, a'.term);
    var x, x', d, d' := MonthlyInstalment(a.amount, a.term) as real, MonthlyInstalment(a'.amount, a'.term) as real, a.income as real, a'.income as real;
    hide *;
    if x' >= 0.0 {
      Smaller(x', x, d, d');
    } else {
      var y := x' / d';
      assert y * d' == x';
      Signs(y, d');
    }
  }
}
