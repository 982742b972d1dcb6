/** Resetting one wrongly generated statement bill to draft: a guarded, one-shot transaction. */
module StatementReset {
  import opened Text
  import opened BindingStore

  /** Amounts are in hundredths. */
  datatype Bill = Bill(
    id: string, instanceId: string, checkDate: string, checkAmount: int, checkStatus: string,
    invoiceStatus: string, invoiceNo: Option<string>, invoiceAmount: Option<int>, lastError: Option<string>, live: bool)

  datatype Instance = Instance(
    id: string, stage: string, status: string, errorCode: Option<string>, errorMessage: Option<string>,
    summary: Stored, live: bool)

  datatype StageChange = StageChange(instanceId: string, from: string, to: string, actor: string)

  datatype Statements = Statements(bills: seq<Bill>, instances: seq<Instance>, history: seq<StageChange>)

  const PRODUCT_DB := "rpa_autotask"
  const CHECK_DATE := "2026-09-11"
  const CHECK_AMOUNT := 1232456452
  const UNCHECKED := "UNCHECKED"
  const DRAFT := "DRAFT"
  const PENDING_INVOICE := "STMT_PENDING_INVOICE"
  const GENERATING := "STMT_GENERATING"
  const ACTIVE := "ACTIVE"

  datatype Refusal = WrongDb | NotOneBill | WrongStatus | WrongStage | NoLines
  datatype Result = Done(tables: Statements) | Preview | Refused(why: Refusal)

  function InstanceRow(rows: seq<Instance>, id: string): (i: int)
    ensures i == -1 || (0 <= i < |rows| && rows[i].id == id)
    ensures forall k :: 0 <= k < |rows| && (i == -1 || k < i) ==> rows[k].id != id
  {
    if rows == [] then -1
    else if rows[0].id == id then 0
    else
      var i := InstanceRow(rows[1..], id);
      if i < 0 then -1 else i + 1
  }

  /** A live bill of the wanted date and amount, joined to its live instance. */
  predicate Wanted(t: Statements, b: Bill) {
    var i := InstanceRow(t.instances, b.instanceId);
    b.live && b.checkDate == CHECK_DATE && b.checkAmount == CHECK_AMOUNT && i >= 0 && t.instances[i].live
  }

  function WantedRows(t: Statements, n: nat): (hits: seq<int>)
    requires n <= |t.bills|
    ensures forall j :: 0 <= j < |hits| ==> 0 <= hits[j] < n && Wanted(t, t.bills[hits[j]])
    ensures forall k :: 0 <= k < n && Wanted(t, t.bills[k]) ==> k in hits
    ensures Increasing(hits)
  {
    if n == 0 then []
    else if Wanted(t, t.bills[n - 1]) then WantedRows(t, n - 1) + [n - 1]
    else WantedRows(t, n - 1)
  }

  /** `len(summary["lines"])` when the summary is an object with a list there, otherwise 0. */
  function LineCount(summary: Stored): nat {
    var fields := ConfigFields(summary);
    if "lines" in fields && fields["lines"].JList? then |fields["lines"].items| else 0
  }

  function ResetBill(b: Bill): Bill {
    b.(checkStatus := DRAFT, invoiceStatus := "NOT_UPLOADED", invoiceNo := None, invoiceAmount := None, lastError := None)
  }

  function ResetInstance(p: Instance): Instance {
    p.(status := ACTIVE, errorCode := None, errorMessage := None, stage := GENERATING)
  }

  /** What one run of the script decides and does. */
  function Reset(t: Statements, db: string, yes: bool): Result {
    var hits := WantedRows(t, |t.bills|);
    if !Contains(db, PRODUCT_DB) then Refused(WrongDb)
    else if |hits| != 1 then Refused(NotOneBill)
    else
      var b := hits[0];
      var i := InstanceRow(t.instances, t.bills[b].instanceId);
      var p := t.instances[i];
      if t.bills[b].checkStatus != UNCHECKED then Refused(WrongStatus)
      else if p.stage != PENDING_INVOICE then Refused(WrongStage)
      else if LineCount(p.summary) < 1 then Refused(NoLines)
      else if !yes then Preview
      else Done(Statements(
        t.bills[b := ResetBill(t.bills[b])],
        t.instances[i := ResetInstance(p)],
        t.history + [StageChange(p.id, PENDING_INVOICE, GENERATING, "ops")]))
  }

  function Next(t: Statements, db: string, yes: bool): Statements {
    if Reset(t, db, yes).Done? then Reset(t, db, yes).tables else t
  }

  class StatementDatabase {
    var bills: seq<Bill>
    var instances: seq<Instance>
    var history: seq<StageChange>

    constructor (t: Statements)
      ensures Contents() == t
    {
      bills, instances, history := t.bills, t.instances, t.history;
    }

    function Contents(): Statements
      reads this
    {
      Statements(bills, instances, history)
    }

    /** `_change_stage` */
    method ChangeStage(i: nat, to: string, actor: string)
      requires i < |instances|
      modifies this
      ensures bills == old(bills)
      ensures instances == old(instances)[i := old(instances)[i].(stage := to)]
      ensures history == if old(instances)[i].stage == to then old(history)
                         else old(history) + [StageChange(old(instances)[i].id, old(instances)[i].stage, to, actor)]
    {
      if instances[i].stage == to {
        assert instances == instances[i := instances[i].(stage := to)];
        return;
      }
      history := history + [StageChange(instances[i].id, instances[i].stage, to, actor)];
      instances := instances[i := instances[i].(stage := to)];
    }

    method ResetOne(db: string, yes: bool) returns (refused: Option<Refusal>)
      modifies this
      ensures Contents() == Next(old(Contents()), db, yes)
      ensures refused == if Reset(old(Contents()), db, yes).Refused? then Some(Reset(old(Contents()), db, yes).why) else None
    {
      if !Contains(db, PRODUCT_DB) {
        return Some(WrongDb);
      }
      var hits := WantedRows(Contents(), |bills|);
      if |hits| != 1 {
        return Some(NotOneBill);
      }
      var b := hits[0];
      var i := InstanceRow(instances, bills[b].instanceId);
      if bills[b].checkStatus != UNCHECKED {
        return Some(WrongStatus);
      }
      if instances[i].stage != PENDING_INVOICE {
        return Some(WrongStage);
      }
      if LineCount(instances[i].summary) < 1 {
        return Some(NoLines);
      }
      if !yes {
        return None;
      }
      bills := bills[b := bills[b].(checkStatus := DRAFT, invoiceStatus := "NOT_UPLOADED", invoiceNo := None,
                                   invoiceAmount := None, lastError := None)];
      instances := instances[i := instances[i].(status := ACTIVE, errorCode := None, errorMessage := None)];
      ChangeStage(i, GENERATING, "ops");
      return None;
    }
  }

  // ---------------------------------------------------------------- properties

  /** It commits exactly when asked to, on the one wanted bill, in the one state it accepts. */
  ghost predicate MayReset(t: Statements, b: nat) {
    && b < |t.bills| && Wanted(t, t.bills[b])
    && (forall k :: 0 <= k < |t.bills| && Wanted(t, t.bills[k]) ==> k == b)
    && t.bills[b].checkStatus == UNCHECKED
    && var p := t.instances[InstanceRow(t.instances, t.bills[b].instanceId)];
       p.stage == PENDING_INVOICE && LineCount(p.summary) >= 1
  }

  lemma OneWanted(t: Statements, b: nat)
    requires b < |t.bills| && Wanted(t, t.bills[b])
    ensures |WantedRows(t, |t.bills|)| == 1 <==> forall k :: 0 <= k < |t.bills| && Wanted(t, t.bills[k]) ==> k == b
    ensures |WantedRows(t, |t.bills|)| == 1 ==> WantedRows(t, |t.bills|) == [b]
  {
    var hits := WantedRows(t, |t.bills|);
    assert b in hits;
    if |hits| > 1 {
      assert hits[0] < hits[1];
      assert Wanted(t, t.bills[hits[0]]) && Wanted(t, t.bills[hits[1]]);
    }
  }

  lemma CommitsIff(t: Statements, db: string, yes: bool)
    ensures Reset(t, db, yes).Done? <==> Contains(db, PRODUCT_DB) && yes && exists b: nat :: MayReset(t, b)
  {
    var hits := WantedRows(t, |t.bills|);
    if |hits| == 1 {
      OneWanted(t, hits[0]);
      if Reset(t, db, yes).Done? {
        assert MayReset(t, hits[0]);
      }
    }
    if exists b: nat :: MayReset(t, b) {
      var b: nat :| MayReset(t, b);
      OneWanted(t, b);
    }
  }

  /** Bill `k` is live, has the date and the amount of the reset, and belongs to the live instance `i`. */
  ghost predicate IsBillOf(t: Statements, k: nat, i: nat) {
    && k < |t.bills| && i < |t.instances| && t.bills[k].live && t.instances[i].live
    && t.bills[k].checkDate == "2026-09-11" && t.bills[k].checkAmount == 1232456452
    && t.bills[k].instanceId == t.instances[i].id
  }

  ghost predicate InstanceKeys(rows: seq<Instance>) {
    forall i, j :: 0 <= i < j < |rows| ==> rows[i].id != rows[j].id
  }

  /** The bills wanted are those of the join. */
  lemma WantedIff(t: Statements, k: nat)
    requires InstanceKeys(t.instances) && k < |t.bills|
    ensures Wanted(t, t.bills[k]) <==> exists i: nat :: IsBillOf(t, k, i)
    ensures forall i: nat :: IsBillOf(t, k, i) ==> i == InstanceRow(t.instances, t.bills[k].instanceId)
  {
    var i := InstanceRow(t.instances, t.bills[k].instanceId);
    if Wanted(t, t.bills[k]) {
      assert IsBillOf(t, k, i);
    }
  }

  /** A summary has lines when it is an object whose `lines` is a list that is not empty. */
  lemma HasLinesIff(summary: Stored)
    ensures LineCount(summary) >= 1
      <==> summary.Document? && summary.value.JObject? && "lines" in summary.value.fields
           && summary.value.fields["lines"].JList? && summary.value.fields["lines"].items != []
  {
  }

  ghost predicate OnlyWanted(t: Statements, b: nat) {
    b < |t.bills| && Wanted(t, t.bills[b]) && forall k :: 0 <= k < |t.bills| && Wanted(t, t.bills[k]) ==> k == b
  }

  /** What a run answers: the first thing wrong, in this order, or that all is well. */
  lemma AnswerIs(t: Statements, db: string, yes: bool)
    ensures Reset(t, db, yes) == Refused(WrongDb) <==> !Contains(db, PRODUCT_DB)
    ensures Reset(t, db, yes) == Refused(NotOneBill) <==> Contains(db, PRODUCT_DB) && !exists b: nat :: OnlyWanted(t, b)
    ensures forall b: nat :: Contains(db, PRODUCT_DB) && OnlyWanted(t, b) ==>
      var p := t.instances[InstanceRow(t.instances, t.bills[b].instanceId)];
      var r := Reset(t, db, yes);
      if t.bills[b].checkStatus != "UNCHECKED" then r == Refused(WrongStatus)
      else if p.stage != "STMT_PENDING_INVOICE" then r == Refused(WrongStage)
      else if LineCount(p.summary) == 0 then r == Refused(NoLines)
      else if yes then r.Done? else r == Preview
  {
    hide Contains, Wanted, LineCount;
    var hits := WantedRows(t, |t.bills|);
    if |hits| == 1 {
      OneWanted(t, hits[0]);
      assert OnlyWanted(t, hits[0]);
    }
    forall b: nat | OnlyWanted(t, b) ensures hits == [b] {
      OneWanted(t, b);
    }
  }

  /** A commit changes the bill and its instance and logs one stage change; all else is framed. */
  lemma ResetFrame(t: Statements, db: string, yes: bool, b: nat)
    requires Reset(t, db, yes).Done? && MayReset(t, b)
    ensures var u := Next(t, db, yes);
      var i := InstanceRow(t.instances, t.bills[b].instanceId);
      && |u.bills| == |t.bills| && |u.instances| == |t.instances| && i >= 0
      && (forall k :: 0 <= k < |t.bills| && k != b ==> u.bills[k] == t.bills[k])
      && (forall k :: 0 <= k < |t.instances| && k != i ==> u.instances[k] == t.instances[k])
      && u.bills[b] == t.bills[b].(checkStatus := DRAFT, invoiceStatus := "NOT_UPLOADED", invoiceNo := None,
                                   invoiceAmount := None, lastError := None)
      && u.instances[i] == t.instances[i].(status := ACTIVE, errorCode := None, errorMessage := None, stage := GENERATING)
      && u.history == t.history + [StageChange(t.instances[i].id, PENDING_INVOICE, GENERATING, "ops")]
  {
    OneWanted(t, b);
  }

  lemma {:induction false} SameInstanceRow(a: seq<Instance>, b: seq<Instance>, id: string)
    requires |a| == |b| && forall k :: 0 <= k < |a| ==> a[k].id == b[k].id
    ensures InstanceRow(a, id) == InstanceRow(b, id)
  {
    if a != [] {
      SameInstanceRow(a[1..], b[1..], id);
    }
  }

  /** The reset keeps which bills are wanted, so the reset bill is found again, in the wrong state. */
  lemma CommittedStateRefuses(t: Statements, db: string, later: string, yes: bool)
    requires Reset(t, db, true).Done?
    ensures Reset(Next(t, db, true), later, yes).Refused?
  {
    var u := Next(t, db, true);
    var b := WantedRows(t, |t.bills|)[0];
    OneWanted(t, b);
    forall k | 0 <= k < |t.bills| ensures Wanted(u, u.bills[k]) <==> Wanted(t, t.bills[k]) {
      SameInstanceRow(t.instances, u.instances, t.bills[k].instanceId);
    }
    OneWanted(u, b);
  }

  datatype Call = Call(db: string, yes: bool)

  function AfterRuns(t: Statements, calls: seq<Call>): Statements
    decreases |calls|
  {
    if calls == [] then t else AfterRuns(Next(t, calls[0].db, calls[0].yes), calls[1..])
  }

  function Commits(t: Statements, calls: seq<Call>): nat
    decreases |calls|
  {
    if calls == [] then 0
    else (if Reset(t, calls[0].db, calls[0].yes).Done? then 1 else 0)
         + Commits(Next(t, calls[0].db, calls[0].yes), calls[1..])
  }

  /** Tables on which no run commits stay as they are. */
  ghost predicate Closed(t: Statements) {
    forall db, yes :: !Reset(t, db, yes).Done?
  }

  lemma {:induction false} ClosedStays(t: Statements, calls: seq<Call>)
    requires Closed(t)
    ensures Commits(t, calls) == 0 && AfterRuns(t, calls) == t
    decreases |calls|
  {
    if calls != [] {
      ClosedStays(t, calls[1..]);
    }
  }

  /** With no other writer, any number of runs commits at most once; previews and refusals change nothing. */
  lemma {:induction false} AtMostOneCommit(t: Statements, calls: seq<Call>)
    ensures Commits(t, calls) <= 1
    ensures Commits(t, calls) == 0 ==> AfterRuns(t, calls) == t
    ensures Commits(t, calls) == 1 ==> exists db :: Reset(t, db, true).Done? && AfterRuns(t, calls) == Next(t, db, true)
    decreases |calls|
  {
    if calls != [] {
      var c := calls[0];
      if Reset(t, c.db, c.yes).Done? {
        var u := Next(t, c.db, true);
        forall db, yes ensures !Reset(u, db, yes).Done? {
          CommittedStateRefuses(t, c.db, db, yes);
        }
        ClosedStays(u, calls[1..]);
      } else {
        AtMostOneCommit(t, calls[1..]);
      }
    }
  }
}
